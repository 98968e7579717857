# lib_layered_config in Dafny

A model of `lib_layered_config`, a library that builds one read-only
configuration from up to five layers:

1. `app`: system-wide files;
2. `host`: the file for one host name;
3. `user`: per-user files;
4. `dotenv`: a `.env` file;
5. `env`: environment variables under a prefix.

Later layers win. Every leaf remembers which layer and file supplied it.
The model covers:

- the merge algorithm and its provenance index;
- the immutable `Config` view (`get` with dotted paths, `origin`,
  `with_overrides`, `as_dict`);
- the path resolver's search order on Linux, macOS and Windows;
- the `.env` parser and its upward search;
- the environment adapter (prefix, nesting by `__`, value coercion);
- the composition root `read_config`, which orders files by preferred
  suffix and stops at the first malformed file;
- the example helpers `deploy_config` and `generate_examples`;
- the option normalisation of the command line.

Modules follow the program's structure:

| module | file | models |
|---|---|---|
| `Results`, `Text`, `Paths`, `Sorting`, `Tree`, `Storage` | `results.dfy`, `text.dfy`, `paths.dfy`, `sorting.dfy`, `tree.dfy`, `storage.dfy` | shared vocabulary. `Tree` holds the value type. A mapping is an association list in insertion order, like Python's `dict`. `Paths` holds a path as segments and the filesystem as sets of files and directories. |
| `Merge`, `MergeTree`, `MergeProvenance` | `merge.dfy`, `merge_tree.dfy`, `merge_provenance.dfy` | `application/merge.py` |
| `Configuration` | `config.dfy` | `domain/config.py` |
| `Nesting`, `EnvAdapter`, `DotEnv` | `nesting.dfy`, `env.dfy`, `dotenv.dfy` | `adapters/env/default.py` and `adapters/dotenv/default.py` |
| `PathResolver` | `resolver.dfy` | `adapters/path_resolvers/default.py` |
| `Core` | `core.dfy` | `core.py` |
| `Deploy`, `Generate` | `deploy.dfy`, `generate.dfy` | `examples/deploy.py` and `examples/generate.py` |
| `Cli`, `Commands` | `cli.dfy`, `commands.dfy` | `cli.py` |

The merge is modelled twice:

- `MergeTree.TreeMerge` is a reference definition: the merged tree with no
  provenance;
- `Merge.MergeMapping` follows `_merge_mapping` and `_merge_branch` step by
  step, provenance included.

The lemmas tie the two together.

## Model

| member | source | states |
|---|---|---|
| Merge.DottedKey | src/lib_layered_config/application/merge.py:170-173 | The dotted key is the path segments followed by the key, joined with "."; at the top level it is the bare key. |
| Merge.ClearBranch | src/lib_layered_config/application/merge.py:162-167 | Exactly the entries at or below the prefix are dropped; every other entry is kept with its record unchanged. |
| Merge.SetScalar | src/lib_layered_config/application/merge.py:146-159 | The key holds the new value and no other key changes. After the write, the dotted key is the only entry in its branch, stamped with this layer. Entries outside the branch are kept. |
| MergeProvenance.InBranchSegments | src/lib_layered_config/application/merge.py:166 | The string test `k == p or k.startswith(p + ".")` agrees with a test on segments: the segments of `k` start with those of `p`. |
| MergeProvenance.JoinSegments | src/lib_layered_config/application/merge.py:173 | Splitting a dotted key on "." and joining the pieces again gives the key back. |
| MergeProvenance.SegmentsJoin | src/lib_layered_config/application/merge.py:173 | Joining dot-free segments and splitting the result gives the segments back. |
| MergeTree.TreeMergeHasKeys | src/lib_layered_config/application/merge.py:103-108 | The merged mapping has the keys of the base and of the payload, and no others. |
| MergeTree.MappingTree | src/lib_layered_config/application/merge.py:93-108 | The merged tree `_merge_mapping` builds is the reference `TreeMerge`. It does not depend on provenance, layer or path. Depth matters only as top level versus below. |
| MergeTree.BranchTree | src/lib_layered_config/application/merge.py:111-143 | `_merge_branch` stores the reference merge of the incoming mapping under the key. The `pop` on lines 142-143 can never fire, because merging a non-empty mapping always leaves keys behind. |
| MergeTree.TreeMergeGet | src/lib_layered_config/application/merge.py:103-143 | A key the payload does not mention keeps its old value. A key it mentions holds the one-key merge of old and new value. |
| MergeTree.TreeMergeKeys | src/lib_layered_config/application/merge.py:129-140 | Existing keys keep their positions. New keys are appended in payload order, matching Python's insertion-ordered `dict`. |
| MergeTree.TreeMergeUnique | src/lib_layered_config/application/merge.py:103-108 | Merging never duplicates a top-level key. |
| MergeTree.TreeMergeWellFormed | src/lib_layered_config/application/merge.py:93-143 | Merging well-formed mappings keeps every nested mapping free of duplicate keys. |
| MergeTree.MergeOntoEmpty | src/lib_layered_config/application/merge.py:72-77 | Merging one payload onto nothing reproduces the payload, key order included. |
| MergeTree.TreeMergeIdempotent | tests/application/test_merge.py:41-49 | Merging the same payload a second time changes nothing. |
| MergeTree.StepContains | src/lib_layered_config/application/merge.py:123-143 | The incoming value wins, recursively. The one exception is an empty mapping at the top level, which leaves an existing mapping in place. |
| MergeTree.TreeMergeAssociative | tests/application/test_merge.py:52-59 | Merging is associative when the middle payload has no empty mapping and never holds a non-mapping where the last payload holds a mapping. |
| MergeTree.NotAssociativeWithEmptyMapping | src/lib_layered_config/application/merge.py:125-130 | Counterexample: a nested empty mapping in the middle payload breaks associativity. |
| MergeTree.NotAssociativeWithScalarThenMapping | src/lib_layered_config/application/merge.py:132-138 | Counterexample: a scalar in the middle payload under a key that the last payload maps breaks associativity, with no empty mapping anywhere. |
| MergeTree.MergeLayersTree | src/lib_layered_config/application/merge.py:72-90 | The tree `merge_layers` returns is the left fold of the reference merge over the layers. |
| MergeTree.SingleLayer | src/lib_layered_config/application/merge.py:72-90 | A single layer comes back unchanged. |
| MergeTree.MergeLayerGet | tests/application/test_merge.py:18-38 | A key the last layer does not mention keeps its value from the earlier layers. A key it mentions takes the merged value. |
| MergeTree.LastLayerWins | tests/application/test_merge.py:72-80 | Every key of the last payload whose value is not an empty mapping appears in the result with that value, recursively. |
| MergeTree.TwoLayers | src/lib_layered_config/application/merge.py:75-77 | Two layers merge as the second merged onto the first. |
| MergeTree.MergeLayersAssociative | tests/application/test_merge.py:52-59 | The test's check holds under the conditions of `TreeMergeAssociative`: merging `a, b, c` and then `c` again equals merging `a` with the merge of `b` and `c`. |
| MergeProvenance.MappingFrame | src/lib_layered_config/application/merge.py:103-108 | For dot-free payloads (no key contains "."), `_merge_mapping` changes provenance only inside the branches of the keys it merges. |
| MergeProvenance.BranchFrame | src/lib_layered_config/application/merge.py:111-143 | For dot-free payloads (no key contains "."), `_merge_branch` changes provenance only inside the branch of its key. |
| MergeProvenance.MappingRel | src/lib_layered_config/application/merge.py:93-108 | For dot-free payloads (no key contains "."), `_merge_mapping` keeps the provenance index in step with the non-mapping leaves of the tree. |
| MergeProvenance.BranchRel | src/lib_layered_config/application/merge.py:111-143 | For dot-free payloads (no key contains "."), `_merge_branch` keeps the index in step with the leaves, including through the clear-and-replace path and the empty-mapping path. |
| MergeProvenance.MappingSets | src/lib_layered_config/application/merge.py:103-108 | For dot-free payloads (no key contains "."), every leaf of the payload ends up stamped with the layer and path being merged, under its own dotted key. |
| MergeProvenance.ReplacedBranchStamped | src/lib_layered_config/application/merge.py:135-140 | When a mapping replaces a scalar or nothing, the branch afterwards holds only entries written by that mapping. |
| MergeProvenance.EmptyMappingRule | src/lib_layered_config/application/merge.py:125-130 | An empty mapping is ignored at the top level over an existing mapping. Otherwise the key holds `{}` and every entry at or below it is gone; all other keys and entries are kept. |
| MergeProvenance.NoEntryAtMapping | src/lib_layered_config/application/merge.py:135-159 | For dot-free payloads (no key contains "."), a key that holds a mapping has no provenance entry of its own. |
| MergeProvenance.TreeMergeDotFree | src/lib_layered_config/application/merge.py:103-108 | Merging dot-free mappings creates no key containing ".". |
| MergeProvenance.MergeLayersConsistent | src/lib_layered_config/application/merge.py:72-90 | For dot-free payloads, the index `merge_layers` returns is in step with the merged tree. |
| MergeProvenance.ProvenanceIsLeaves | src/lib_layered_config/application/merge.py:72-77 | For dot-free payloads, the provenance keys are exactly the dotted paths of the non-mapping leaves of the merged tree: every leaf has an entry and nothing else does. |
| MergeProvenance.LastLayerProvenance | tests/application/test_merge.py:18-28 | For dot-free payloads (no key contains "."), every leaf of the last layer is attributed to that layer's name and path, under its own dotted key. |
| MergeProvenance.LayerStamps | src/lib_layered_config/application/merge.py:80-90 | For dot-free payloads (no key contains "."), merging a layer stamps every one of its leaves with that layer. |
| MergeProvenance.UnmentionedKept | src/lib_layered_config/application/merge.py:93-108 | For dot-free payloads (no key contains "."), a layer leaves every provenance entry under a top-level key it does not mention unchanged, and adds none there. |
| MergeProvenance.BranchKeepsSibling | src/lib_layered_config/application/merge.py:123-141 | For dot-free payloads (no key contains "."), merging a mapping into an existing top-level mapping keeps every provenance entry below it whose next segment the incoming mapping does not mention. |
| MergeProvenance.SiblingsKept | src/lib_layered_config/application/merge.py:93-141 | For dot-free payloads (no key contains "."), through the whole top-level merge of a payload with unique keys: where both sides map `k` to a mapping, an entry below `k` whose next segment the payload's mapping does not mention is unchanged, and none appears there. |
| MergeProvenance.UnmentionedNestedKept | tests/application/test_merge.py:31-38 | For dot-free payloads (no key contains "."), a layer merged into a mapping keeps its siblings' provenance: with `db` mentioned and `db.host` not, `db.host`'s record is unchanged. |
| MergeProvenance.MergeLayersRecords | src/lib_layered_config/application/merge.py:72-77 | Every provenance record is keyed by its own dotted key and names one of the input layers together with that layer's path. |
| Configuration.Item | src/lib_layered_config/domain/config.py:138-163 | `cfg[key]` is the top-level value under `key`, or the `KeyError` case exactly when the key is absent. |
| Configuration.Iter | src/lib_layered_config/domain/config.py:165-185 | Iteration yields the top-level keys in insertion order. |
| Configuration.Len | src/lib_layered_config/domain/config.py:187-205 | `len` is the number of top-level keys. |
| Configuration.MappingProtocol | src/lib_layered_config/domain/config.py:138-205 | With unique keys, `len`, `iter` and `__getitem__` agree: iteration yields each key once, and exactly those keys can be looked up. |
| Configuration.Resolve | src/lib_layered_config/domain/config.py:398-406 | The empty path gives the value itself. A walk gives up as soon as the current value is not a mapping or lacks the next segment. |
| Configuration.ResolveConcat | src/lib_layered_config/domain/config.py:401-406 | Walking `a + b` is walking `a`, then walking `b` from where `a` ended. |
| Configuration.GetTopLevel | src/lib_layered_config/domain/config.py:289-318 | For a key without dots, `get` reads the same top-level entry as `__getitem__`. |
| Configuration.GetPathDotted | src/lib_layered_config/domain/config.py:398-406 | `get("k.rest")` with a dot-free head is `get("rest")` inside the mapping stored under `k`; when `k` is missing or holds no mapping it is the default. With GetTopLevel this fixes `get` for every key, one segment at a time. |
| Configuration.ResolveLeaf | src/lib_layered_config/domain/config.py:398-406 | A walk ends on a non-mapping value exactly along a leaf path of the tree. |
| Configuration.Origin | src/lib_layered_config/domain/config.py:320-347 | `origin` returns the record stored under exactly that key, and nothing when there is none. |
| Configuration.OriginExact | src/lib_layered_config/domain/config.py:320-347 | `origin` looks at one key only. What is recorded under its parents or children does not matter. |
| Configuration.OriginMatchesGet | src/lib_layered_config/domain/config.py:289-347 | For a configuration built by merging dot-free layers, `origin(key)` exists exactly when `get(key)` reaches a non-mapping value. |
| Configuration.MergeTopLevelUnique | src/lib_layered_config/domain/config.py:390-395 | Updating a mapping with unique keys never duplicates a key. |
| Configuration.MergeTopLevelGet | src/lib_layered_config/domain/config.py:390-395 | Each overridden key reads the override; every other key keeps its base value. |
| Configuration.MergeTopLevelKeys | src/lib_layered_config/domain/config.py:390-395 | The base keys come first, in their order; the new keys follow. |
| Configuration.WithOverrides | src/lib_layered_config/domain/config.py:349-381 | The new configuration has the overridden data and shares the provenance index. |
| Configuration.OverridesApply | src/lib_layered_config/domain/config.py:349-381 | Overridden keys read the override and the rest read as before; `origin` answers as before for every key. |
| Configuration.OverridesShallow | src/lib_layered_config/domain/config.py:390-395 | Overrides are shallow: below an overridden key, `get` sees only the override, never a deep merge. |
| Configuration.CopyIsEqual | src/lib_layered_config/domain/config.py:409-477 | The deep copy equals the original value all the way down. |
| Configuration.AsDict | src/lib_layered_config/domain/config.py:207-245 | `as_dict` yields a mapping equal to the configuration's data. |
| Configuration.AsDictRoundTrip | src/lib_layered_config/domain/config.py:207-245 | Every dotted lookup through the exported copy gives what the configuration itself gives. |
| Configuration.EmptyConfigGet | src/lib_layered_config/domain/config.py:482 | `EMPTY_CONFIG` has no keys, so every `get` returns the default. |
| Nesting.ResolveKey | src/lib_layered_config/adapters/env/default.py:166-178 | The key used is an existing key equal to the segment ignoring case, or else the segment lowercased. |
| Nesting.ResolveKeyFirst | src/lib_layered_config/adapters/env/default.py:174-177 | When several keys match ignoring case, the first one in insertion order is reused. |
| Nesting.AssignThenResolve | src/lib_layered_config/adapters/env/default.py:143-163 | Round trip: over lowercase keys, after a successful assignment the lowercased `__` path leads to the assigned value. |
| Nesting.AssignFails | src/lib_layered_config/adapters/env/default.py:181-196 | Assignment fails exactly when some proper prefix of the lowercased path already ends on a non-mapping value. |
| Nesting.AssignKeepsLower | src/lib_layered_config/adapters/env/default.py:166-178 | Assigning into a mapping with lowercase keys keeps every key lowercase, at every depth. |
| Nesting.AssignKeepsCaseUnique | src/lib_layered_config/adapters/dotenv/default.py:214-227 | A mapping never gains two keys that differ only in case, at any depth. |
| Nesting.AssignFrame | src/lib_layered_config/adapters/env/default.py:158-163 | Top-level keys that do not match the first segment ignoring case are left alone. |
| Nesting.AssignKeys | src/lib_layered_config/adapters/env/default.py:158-163 | After the assignment, the top-level keys are the old ones plus at most the resolved first segment. |
| EnvAdapter.DefaultEnvPrefix | src/lib_layered_config/adapters/env/default.py:28-52 | Each character of the prefix is the slug's character at that position, upper-cased, with `-` turned into `_`; so the prefix has no lowercase letter and no dash. |
| EnvAdapter.EnvPrefixIdempotent | src/lib_layered_config/adapters/env/default.py:52 | Building a prefix from a prefix changes nothing. |
| EnvAdapter.NormalizePrefix | src/lib_layered_config/adapters/env/default.py:114-119 | The empty prefix and a prefix already ending in `_` come back unchanged. Any other prefix gains exactly one `_`. |
| EnvAdapter.NormalizePrefixIdempotent | src/lib_layered_config/adapters/env/default.py:114-119 | Normalising a prefix twice changes nothing more. |
| EnvAdapter.NamespaceMember | src/lib_layered_config/adapters/env/default.py:122-134 | An entry comes out exactly when a variable carries the prefix and something after it. Its name is what follows the prefix. |
| EnvAdapter.CoerceKinds | src/lib_layered_config/adapters/env/default.py:218-245 | Which kind of value a text becomes (bool, null, int, float, string), each kind described by the text alone, in the order of the checks. |
| EnvAdapter.CoerceShowInt | src/lib_layered_config/adapters/env/default.py:240-245 | Round trip: the decimal text of any integer coerces back to that integer. |
| EnvAdapter.LoneDashNotInt | src/lib_layered_config/adapters/env/default.py:240-243 | A lone `-` is not an integer, because the empty rest is not all digits. |
| EnvAdapter.ChooseEnviron | src/lib_layered_config/adapters/env/default.py:67 | An empty explicit environment falls back to the process environment. |
| EnvAdapter.LoadShape | src/lib_layered_config/adapters/env/default.py:106-111 | Every key the loader produces is lowercase, and no mapping holds two keys that differ only in case. |
| EnvAdapter.LoadIgnoresUnprefixed | src/lib_layered_config/adapters/env/default.py:126-128 | A variable without the prefix does not influence the result. |
| EnvAdapter.LoadLastReadable | src/lib_layered_config/adapters/env/default.py:106-111 | The last prefixed variable can be read back at its lowercased `__` path, holding its coerced value. |
| DotEnv.StripQuotesRoundTrip | src/lib_layered_config/adapters/dotenv/default.py:181-182 | Round trip: quoting any text with `"` or `'` and stripping gives the text back. |
| DotEnv.StripQuotesInfix | src/lib_layered_config/adapters/dotenv/default.py:165-187 | The result is always a contiguous piece of the value. Stripping never invents text. |
| DotEnv.StripQuotesNoComment | src/lib_layered_config/adapters/dotenv/default.py:183-187 | An unquoted value never keeps an inline ` #` comment. |
| DotEnv.ClassifySpec | src/lib_layered_config/adapters/dotenv/default.py:152-160 | A line is skipped exactly when it strips to nothing or to a comment. It is malformed exactly when it counts and has no `=`. Otherwise it splits at its first `=`, both sides stripped and the value unquoted. Stripping removes every character Python's `isspace` accepts, such as U+00A0. |
| DotEnv.ParseOkWellFormed | src/lib_layered_config/adapters/dotenv/default.py:149-162 | A successful parse means no line was malformed. |
| DotEnv.ParseMalformedFirst | src/lib_layered_config/adapters/dotenv/default.py:151-157 | A malformed-line error names the first malformed line, counting from 1. |
| DotEnv.ParseShape | src/lib_layered_config/adapters/dotenv/default.py:149-162 | A parsed file holds only strings (values are never coerced), under lowercase keys that are unique ignoring case. |
| DotEnv.StartBase | src/lib_layered_config/adapters/dotenv/default.py:119 | A missing or empty start directory means the working directory. |
| DotEnv.Candidates | src/lib_layered_config/adapters/dotenv/default.py:91 | The candidates are `.env` in the start directory and each ancestor, nearest first, then the extras. |
| DotEnv.FirstFile | src/lib_layered_config/adapters/dotenv/default.py:93-94 | This is the index of the first candidate that is a file, with no file before it, or -1 exactly when none is a file. |
| DotEnv.LoadPicksFirst | src/lib_layered_config/adapters/dotenv/default.py:91-100 | The file loaded is the first candidate that exists, and only its lines are read. With none, the result is empty and no path is recorded. |
| DotEnv.NearestWins | src/lib_layered_config/adapters/dotenv/default.py:119-121 | A `.env` in the start directory itself always wins. |
| DotEnv.ExtrasLast | src/lib_layered_config/adapters/dotenv/default.py:91 | An extra location is used only when no directory on the way up holds a `.env`. |
| PathResolver.MergedEnv | src/lib_layered_config/adapters/path_resolvers/default.py:83 | Explicit entries override the process environment; every other variable is kept. |
| PathResolver.OsOf | src/lib_layered_config/adapters/path_resolvers/default.py:156-188 | Linux is any platform starting with `linux`, macOS exactly `darwin`, Windows any platform starting with `win`. The three tests never overlap. |
| PathResolver.CollectLayerSpec | src/lib_layered_config/adapters/path_resolvers/default.py:338-380 | A layer directory yields `config.toml` first when it is a file, then exactly the allowed files in `config.d`, in name order. |
| PathResolver.CollectLayerFiles | src/lib_layered_config/adapters/path_resolvers/default.py:373-380 | Every path a layer directory yields is an existing file. |
| PathResolver.HostFile | src/lib_layered_config/adapters/path_resolvers/default.py:241-245 | The host layer is `<base>/hosts/<hostname>.toml` when that is a file, and nothing otherwise. |
| PathResolver.XdgConfigHome | src/lib_layered_config/adapters/path_resolvers/default.py:247-250 | The user base is `XDG_CONFIG_HOME` when set and non-empty, and `~/.config` otherwise. |
| PathResolver.LayerPathsSpec | src/lib_layered_config/adapters/path_resolvers/default.py:148-165 | Every layer yields only existing files. The host layer yields at most one. An unknown platform or layer name yields nothing. |
| PathResolver.WindowsUserFallback | src/lib_layered_config/adapters/path_resolvers/default.py:279-283 | On Windows the user layer reads the local application data directory exactly when the roaming one does not exist. |
| PathResolver.ProjectDotenvSpec | src/lib_layered_config/adapters/path_resolvers/default.py:315-323 | The project `.env` files are those that exist from the working directory up to the root, nearest first, each once. |
| PathResolver.DotenvBesideUser | src/lib_layered_config/adapters/path_resolvers/default.py:325-335 | The platform `.env` sits in the directory the user layer reads. On Windows that is the roaming directory, so this holds only while it exists. |
| PathResolver.LinuxDotenvAgrees | src/lib_layered_config/adapters/path_resolvers/default.py:326-328 | The corrected `.env` location agrees with the code as written whenever `XDG_CONFIG_HOME` is unset or non-empty. |
| PathResolver.XdgEmptyMismatch | src/lib_layered_config/adapters/path_resolvers/default.py:326-328 | With `XDG_CONFIG_HOME=""`, the user layer reads `~/.config/<slug>` but the `.env` looked for is the relative `<slug>/.env`. |
| PathResolver.DotenvPathsSpec | src/lib_layered_config/adapters/path_resolvers/default.py:301-313 | Every dotenv candidate exists. The project ones come first, nearest first. The platform one, when present, comes last. Stated with the corrected platform base (see "Left out"). |
| Paths.ParseEmpty | src/lib_layered_config/adapters/path_resolvers/default.py:327 | `Path("")` is the current directory, so a `.env` below it is a relative path. |
| Paths.RenderParse | src/lib_layered_config/core.py:392 | Printing a path and parsing it back gives the same path. The file layers pass paths around as strings. |
| Paths.DivName | src/lib_layered_config/adapters/path_resolvers/default.py:239 | Joining a plain name appends exactly that segment. |
| Paths.SuffixOf | src/lib_layered_config/core.py:392 | A name `<stem>.<ext>` with a dot-free extension has suffix `.<ext>`. A leading-dot name such as `.env` has none. |
| Paths.SelfAndParentsDistinct | src/lib_layered_config/adapters/path_resolvers/default.py:317 | A directory and its parents are pairwise distinct, each one segment shorter than the one before. |
| Sorting.SortPermutes | src/lib_layered_config/core.py:430-433 | `sorted` returns a permutation of its input. |
| Sorting.SortSorted | src/lib_layered_config/core.py:430-433 | `sorted` returns its input ordered by key. |
| Sorting.SortStable | src/lib_layered_config/core.py:430-433 | `sorted` is stable: elements that share a key keep their input order. |
| Sorting.SortTwo | src/lib_layered_config/core.py:422-423 | Two elements swap exactly when the second has the smaller key. |
| Sorting.SortNamesPermutes | src/lib_layered_config/adapters/path_resolvers/default.py:378 | Sorting directory entries returns a permutation of them. |
| Sorting.SortNamesSorted | src/lib_layered_config/adapters/path_resolvers/default.py:378 | Directory entries come out in lexicographic order. |
| Sorting.FilterNamesSorted | src/lib_layered_config/adapters/path_resolvers/default.py:378-380 | Keeping only the allowed files keeps the lexicographic order. |
| Tree.PutKeys | src/lib_layered_config/application/merge.py:158 | Assigning a key keeps the key order and appends a key that is new. |
| Text.SplitJoin | src/lib_layered_config/domain/config.py:402 | Splitting on a one-character separator undoes joining parts that do not contain it. |
| Text.JoinSplit | src/lib_layered_config/application/merge.py:173 | Joining the parts of a split gives the string back. |
| Text.CutAtFirst | src/lib_layered_config/adapters/dotenv/default.py:158 | The first `=` cuts a line into head, separator and rest, with no separator in the head. |
| Storage.Write | src/lib_layered_config/examples/deploy.py:137-147 | After a write the file holds the content and its parent directories exist. Nothing that existed disappears. Every other file keeps its content. Write errors are not modelled (see "Left out"). |
| Core.RankingSpec | src/lib_layered_config/core.py:429 | The ranking holds exactly the normalised suffixes, each at the index of its last occurrence. It has no more entries than `prefer`. |
| Core.OrderPathsSpec | src/lib_layered_config/core.py:426-433 | The order is a permutation of the input. Without a preference it is the input itself; otherwise it is a stable sort by rank. |
| Core.PreferredFirst | src/lib_layered_config/core.py:426-433 | Every path with a preferred suffix comes before every path without one, and preferred paths follow the order of `prefer`. This is the docstring's promise, proved of the corrected order; the code as written breaks it for a repeated suffix (see "Findings"). |
| Core.OrderPathsAgree | src/lib_layered_config/core.py:429-433 | With no suffix repeated in `prefer`, the code as written and the corrected order coincide. |
| Core.UnknownTiesAsWritten | src/lib_layered_config/core.py:432 | When `prefer` repeats a suffix, an unknown suffix ranks level with the last preferred one, so it can stay in front of it. |
| Core.RepeatedPreferenceTie | src/lib_layered_config/core.py:429-433 | With `prefer = [x, x, y]`, a path with an unlisted suffix placed before a `y` path stays first as written; the corrected order puts the `y` path first. |
| Core.KeyOfFile | src/lib_layered_config/core.py:392 | A file `<stem>.<ext>` with a lowercase, dot-free extension is ranked and loaded by that extension. |
| Core.LoadEntrySpec | src/lib_layered_config/core.py:389-404 | No entry when there is no loader for the suffix, the file is missing, or the mapping is empty. A malformed file aborts with the layer and path named. Any other file gives an entry with its data and path. |
| Core.CollectErrors | src/lib_layered_config/core.py:380-386 | Collecting succeeds exactly when no step fails; a failure is that of the first failing step. |
| Core.CollectAppend | src/lib_layered_config/core.py:380-386 | Collecting a concatenation collects the two halves in turn: order is kept and the first failure wins. |
| Core.LoadAllEntries | src/lib_layered_config/core.py:380-404 | Every entry names the layer, holds a non-empty mapping, and records the path whose load produced it. |
| Core.LoadFilesOf | src/lib_layered_config/core.py:331-386 | Every entry `_load_files` returns belongs to the layer and holds data. |
| Core.PathLayersOrder | src/lib_layered_config/core.py:241-264 | The file layers come out app, then host, then user, each entry holding data. |
| Core.DotenvLayer | src/lib_layered_config/core.py:273-281 | The dotenv entry is present exactly when the loader found data, and carries the path loaded. |
| Core.EnvLayer | src/lib_layered_config/core.py:283-292 | The environment entry is present exactly when the loader found data, and has no path. |
| Core.GatherOrder | src/lib_layered_config/core.py:205-221 | The stack is the app, host and user files, then at most one `.env` entry, then at most one environment entry. Every entry holds data. |
| Core.MergeOrEmpty | src/lib_layered_config/core.py:294-303 | An empty stack gives an empty tree and index; any other stack gives the merge. |
| Core.ConfigOf | src/lib_layered_config/core.py:133-136 | Empty data gives `EMPTY_CONFIG`; otherwise the configuration holds the data and provenance. |
| Core.MergedEmptyIffNoLayers | src/lib_layered_config/core.py:294-303 | A stack of layers that each hold data merges to a non-empty tree. |
| Core.ShortCircuitExact | src/lib_layered_config/core.py:133-136 | The `if not data` short-circuit never drops provenance: for a gathered stack the result is exactly the merged configuration. |
| Core.ReadConfigSpec | src/lib_layered_config/core.py:68-194 | `read_config` returns the merge of a stack that runs app, host, user, `.env`, environment, with the merge's provenance. It fails exactly when gathering the layers fails. Stated with the corrected file order and `.env` base (see "Left out"). |
| Cli.PreferKeySpec | src/lib_layered_config/cli.py:444 | A normalised suffix is the typed suffix lowercased, without leading dots, and is itself lowercase. |
| Cli.NormalizePreferSpec | src/lib_layered_config/cli.py:439-444 | No suffixes give no preference. Otherwise length and order are kept, each entry normalised. |
| Cli.NormalizePreferIdempotent | src/lib_layered_config/cli.py:439-444 | Normalising an already normalised preference changes nothing. |
| Cli.NormalizePreferOrder | src/lib_layered_config/cli.py:416 | Normalising on the command line before `read_config` normalises again yields the same file order as the suffixes as typed. |
| Cli.NormalizeTargets | src/lib_layered_config/cli.py:455-458 | Each target is lowercased and the order is kept. |
| Cli.NormalizeTargetsIdempotent | src/lib_layered_config/cli.py:455-458 | Normalising targets twice gives the same targets. |
| Cli.PlatformAlias | src/lib_layered_config/cli.py:497-507 | The resolver alias table: blank means none, a known alias succeeds, and each known alias maps to a platform string the resolver recognises. |
| Cli.ExamplesPlatformAlias | src/lib_layered_config/cli.py:469-479 | The examples alias table: blank means none, a known alias succeeds, and each known alias maps to posix or windows. |
| Cli.NormalizePlatformSpec | src/lib_layered_config/cli.py:489-514 | A missing or blank value gives none. Any other value succeeds exactly when its trimmed, lowercased alias is known, with a result among linux, darwin and win32. |
| Cli.NormalizeExamplesPlatformSpec | src/lib_layered_config/cli.py:461-486 | A missing or blank value gives none. Any other value succeeds exactly when the alias is known, with result posix or windows. |
| Cli.PlatformTablesAgree | src/lib_layered_config/cli.py:461-514 | The two tables accept the same aliases and agree on Windows: the examples one says windows exactly when the resolver one says win32. |
| Cli.NormalizedPlatformKnown | src/lib_layered_config/cli.py:497-507 | Every normalised platform selects the intended operating system in the resolver. |
| Cli.NormalizePlatformIdempotent | src/lib_layered_config/cli.py:489-514 | A normalised platform normalises to itself. |
| Cli.NormalizeExamplesPlatformIdempotent | src/lib_layered_config/cli.py:461-486 | A normalised example platform normalises to itself. |
| Cli.ExamplesPlatformReachesGenerator | src/lib_layered_config/examples/generate.py:211-219 | The generator keeps what the examples table chose: posix stays posix and windows stays windows. |
| Commands.CopyTargetsNormalized | src/lib_layered_config/cli.py:363 | Lowercasing the targets first changes nothing a deployment does, except that an error names the lowercased target. |
| Commands.DeployLayersBadPlatform | src/lib_layered_config/cli.py:363-372 | An unknown platform is rejected before anything else, even before a missing source is noticed, and nothing is written. |
| Commands.DeployLayersAsTyped | src/lib_layered_config/cli.py:351-372 | The command deploys exactly as the library does with the targets as typed: same files written, same paths reported, same targets rejected. |
| Commands.DeployLayersReadBack | src/lib_layered_config/cli.py:351-372 | With an accepted platform, every file the command reports is read back by the resolver in the layer one of the targets names. |
| Commands.GenerateExampleTreeLayout | src/lib_layered_config/cli.py:376-395 | For one-segment slug, vendor and application names: a Windows alias gives the Windows layout, any other alias the POSIX one, and no platform the host's own. The files written are those of the layout that did not exist yet. |
| Deploy.DestinationDefined | src/lib_layered_config/examples/deploy.py:150-221 | `app`, `host` and `user` have a destination on every platform, and no other name does. |
| Deploy.DestinationIgnoresDisk | src/lib_layered_config/examples/deploy.py:150-221 | The destination depends on the environment, platform and names, never on what is on disk. |
| Deploy.CopyTargetsResult | src/lib_layered_config/examples/deploy.py:111-124 | Success exactly when every target is supported, writes assumed not to fail. Otherwise the error names the first unsupported target as typed. |
| Deploy.CopyTargetsGrows | src/lib_layered_config/examples/deploy.py:88-93 | A deployment removes nothing: files stay files, directories stay directories. |
| Deploy.CopyTargetsUntouched | src/lib_layered_config/examples/deploy.py:88-93 | A path that is no target's destination keeps whether it is a file and what it holds. |
| Deploy.CopyTargetsCreated | src/lib_layered_config/examples/deploy.py:88-93 | Every reported path is on disk with the payload, below directories that exist. |
| Deploy.CreatedAreDestinations | src/lib_layered_config/examples/deploy.py:111-124 | Every reported path is the destination of one of the targets. |
| Deploy.CopyTargetsForce | src/lib_layered_config/examples/deploy.py:127-134 | With `force`, and no destination equal to the source, every destination is written and reported in target order. |
| Deploy.CopyTargetsSpares | src/lib_layered_config/examples/deploy.py:127-134 | A path that resolves to the source, or that exists while `force` is off, is never written or reported. |
| Deploy.CopyTargetsSettles | src/lib_layered_config/examples/deploy.py:127-134 | After a deployment nothing is left to copy. |
| Deploy.CopyTargetsRepeat | src/lib_layered_config/examples/deploy.py:127-134 | Deploying again without `force` writes and reports nothing. |
| Deploy.ConfigFileCollected | src/lib_layered_config/adapters/path_resolvers/default.py:373-375 | A file at `base/config.toml` is the first file the layer at `base` yields. |
| Deploy.FoundByResolver | src/lib_layered_config/examples/deploy.py:168-221 | A file at a layer's destination is read back by the resolver for that layer on a recognised platform. |
| Deploy.DeployOutcome | src/lib_layered_config/examples/deploy.py:81-93 | `FileNotFoundError` with nothing written exactly when the source is not a file. Otherwise success exactly when every target is supported, writes assumed not to fail. |
| Deploy.DeploySpares | src/lib_layered_config/examples/deploy.py:81-93 | Deploying never touches its source, and without `force` never overwrites or reports a path that already existed. |
| Deploy.DeployCreated | src/lib_layered_config/examples/deploy.py:81-93 | Every reported path holds the source's bytes and is the destination of one of the targets. |
| Deploy.DeployRepeat | src/lib_layered_config/examples/deploy.py:81-93 | Deploying a second time without `force` writes and reports nothing. |
| Deploy.DeployForce | src/lib_layered_config/examples/deploy.py:81-93 | With `force`, and no destination resolving to the source, every destination is written and reported in target order. |
| Deploy.DeployFoundByResolver | src/lib_layered_config/examples/deploy.py:150-221 | On a recognised platform every reported file is among the files of the layer its target names. |
| Deploy.UnknownPlatformFallback | src/lib_layered_config/examples/deploy.py:165 | On an unrecognised platform deploy still writes to the Linux locations, which the resolver does not read there. |
| Generate.NormalisePlatform | src/lib_layered_config/examples/generate.py:211-219 | Any value starting with `win`, in any case, gives windows; any other value gives posix; no value means the running system decides. |
| Generate.PosixLayout | src/lib_layered_config/examples/generate.py:188-208 | For a one-segment slug (non-empty, not `.`, no `/`), the five POSIX examples are exactly these paths, in this order. |
| Generate.WindowsLayout | src/lib_layered_config/examples/generate.py:163-186 | For one-segment vendor and application names (non-empty, not `.`, no `/`), the five Windows examples are exactly these paths, in this order. |
| Generate.EnvExampleKey | src/lib_layered_config/examples/generate.py:182-185 | The variable in `.env.example`, read with the slug's default prefix, lands at `service.password`. |
| Generate.WrittenExactly | src/lib_layered_config/examples/generate.py:112-123 | Without interference between targets, the paths written are exactly those missing at the start (all of them with `force`), in spec order. |
| Generate.WriteKeeps | src/lib_layered_config/examples/generate.py:112-123 | A run never makes an existing path disappear. |
| Generate.WriteCovers | src/lib_layered_config/examples/generate.py:112-135 | After a run every target exists. |
| Generate.SecondRunWritesNothing | src/lib_layered_config/examples/generate.py:132-135 | Running again without `force` writes nothing and leaves the disk as it was. |
| Generate.ForceWritesAll | src/lib_layered_config/examples/generate.py:132-135 | With `force` every target is written; with distinct targets each holds its own spec's content. |
| Generate.PosixIndependent | src/lib_layered_config/examples/generate.py:188-208 | For a one-segment slug, no POSIX example sits at or above another. |
| Generate.WindowsIndependent | src/lib_layered_config/examples/generate.py:163-186 | For one-segment vendor and application names, no Windows example sits at or above another. |
| Generate.GeneratedIndependent | src/lib_layered_config/examples/generate.py:144-208 | For one-segment slug, vendor and application names, writing one example never affects whether another exists, so the generator writes exactly the examples missing at the start. |
| Generate.GenerateExamplesSpec | src/lib_layered_config/examples/generate.py:106-109 | The files written are exactly the missing examples of the chosen layout, in layout order (all five with `force`). Afterwards every example exists. |

## Left out

- Parsing of TOML, YAML and JSON files. A file's load is an abstract outcome: missing, malformed, or a mapping.
- Floats. `_maybe_float` is a parameter predicate; a float is carried as its text.
- Logging, trace ids and observability. They have no effect on results.
- Filesystem, environment, clock and host name. They are inputs: a filesystem of files, directories and listings; a map of variables; a host-name string.
- `Path.resolve()` in `_should_copy`. It is a parameter function.
- `iterdir` order. It is arbitrary input, sorted as the code does.
- Windows path syntax (drive letters, backslashes). Paths are POSIX segment lists, so a Windows default such as `C:\ProgramData` is one segment.
- Non-ASCII case mapping. `lower` and `upper` act on ASCII letters only. Whitespace, in contrast, is Python's full `isspace` set.
- `MappingProxyType` freezing. Immutability is native in the model.
- Deep copy of tuples and sets, and `to_json`.
- The order of keys in the provenance index. It is a Dafny map; its insertion order is not modelled.
- Click wiring, exit codes, JSON rendering and message texts. A rejected option is an enumerated error.
- The `info`, `env-prefix`, `fail` and `read` commands, and `main`. They are wiring and printing.
- Bytes. File contents are strings, and file writes are whole-file replacements.
- MergeTree.TreeMergeAssociative: proved only when the middle payload has no empty mapping and never holds a scalar where the last payload holds a mapping. Without those conditions associativity is false (see the two counterexample lemmas), although the merge tests check it for arbitrary data.
- MergeTree.MergeLayersAssociative: the same two restrictions as `TreeMergeAssociative`.
- MergeProvenance.ProvenanceIsLeaves: holds only when no payload key contains "."; a dotted key would collide with a nested path.
- MergeProvenance.MappingFrame, MergeProvenance.BranchFrame, MergeProvenance.MappingRel, MergeProvenance.BranchRel: proved for dot-free payloads only. A literal key such as `"a.b"` makes `_clear_branch` reach into the branch of `a`, so the frame and the index invariant can fail.
- MergeProvenance.MappingSets: dot-free payloads only. For a last layer `{"a": {"b": 1}, "a.b": {}}`, the literal key `"a.b"` clears the record of the leaf `a.b`, so that leaf ends up unstamped.
- MergeProvenance.NoEntryAtMapping: dot-free payloads only. A literal dotted key can leave a record at a path that holds a mapping.
- MergeProvenance.LastLayerProvenance: dot-free payloads only, for the same reason as MappingSets.
- MergeProvenance.LayerStamps: dot-free payloads only, for the same reason as MappingSets.
- MergeProvenance.UnmentionedKept: dot-free payloads only. A literal key `"a.b"` clears `a.b.c` under an unmentioned top-level `a`.
- MergeProvenance.BranchKeepsSibling: dot-free payloads only, for the same reason as UnmentionedKept.
- MergeProvenance.SiblingsKept: dot-free payloads only. A nested literal key `"x.y"` adds `db.x.y` under the unmentioned segment `x`.
- MergeProvenance.UnmentionedNestedKept: dot-free payloads only, for the same reason as SiblingsKept.
- Generate.GenerateExamplesSpec: stated for one-segment slug, vendor and application names; a name containing "/" changes the layout's shape.
- Generate.PosixLayout: stated for a one-segment slug. A slug containing "/" adds directory levels.
- Generate.WindowsLayout: stated for one-segment vendor and application names. An absolute vendor such as `/x` makes `ProgramData/<vendor>/<app>` and `AppData/Roaming/<vendor>/<app>` both `/x/<app>`.
- Generate.PosixIndependent: proved for a one-segment slug only. Slugs containing "/", "." or nothing are not covered.
- Generate.WindowsIndependent: stated for one-segment vendor and application names. With an absolute vendor, the app-defaults and user-preferences `config.toml` are the same path.
- Generate.GeneratedIndependent: stated for one-segment slug, vendor and application names. With an absolute vendor, one `config.toml` is written where the layout lists two.
- Commands.GenerateExampleTreeLayout: stated for one-segment slug, vendor and application names, for the same reason as Generate.GeneratedIndependent.
- Generate.EnvExampleKey: the slug must not end in `-` or `_`, which would leave a doubled underscore after the prefix.
- EnvAdapter.CoerceKinds: the digits of `_looks_like_int` are `0`-`9` only. Python's `str.isdigit` also accepts other Unicode decimal digits such as `٣`, which `int` reads as 3, and digit-like characters such as `²`, on which `int` raises `ValueError` out of the loader. The model reads both as text, because Unicode's digit tables are not modelled.
- Core.ReadConfigSpec: the stack is gathered with the corrected file order (`OrderPaths`) and the corrected platform `.env` base (`PlatformDotenvPath`), the two "Findings" below. `read_config` as written differs when `prefer` repeats a suffix or when `XDG_CONFIG_HOME` is set but empty.
- Core.PreferredFirst: proved of the corrected `OrderPaths`. `_order_paths` as written breaks it when `prefer` repeats a suffix (Core.RepeatedPreferenceTie); for distinct suffixes the two agree (Core.OrderPathsAgree).
- PathResolver.DotenvPathsSpec: stated of `dotenv()` with the corrected platform `.env` base. As written, an empty `XDG_CONFIG_HOME` makes the platform candidate the relative `<slug>/.env` (PathResolver.XdgEmptyMismatch); otherwise the two agree (PathResolver.LinuxDotenvAgrees).
- Storage.Write: never fails. In the source, `mkdir(parents=True, exist_ok=True)` raises when an ancestor of the destination is a file, and `write_bytes` raises `IsADirectoryError` when the destination is a directory, which `force` lets through `_should_copy`. Neither error is modelled, because the filesystem is an abstract input with no error states.
- Deploy.CopyTargetsResult: "success exactly when every target is supported" holds only under Storage.Write's assumption that writes never fail; the `OSError`s of `_copy_payload` are not modelled.
- Deploy.DeployOutcome: the same assumption as Deploy.CopyTargetsResult; a failing `mkdir` or `write_bytes` would end the deployment with an `OSError`.

## Findings

| source | as written | input that shows it | evidently intended | confidence | as-written member | corrected member |
|---|---|---|---|---|---|---|
| src/lib_layered_config/adapters/path_resolvers/default.py:326-328 | `Path(env.get("XDG_CONFIG_HOME", ~/.config))` uses an empty `XDG_CONFIG_HOME` as-is, giving the relative `<slug>/.env` | `XDG_CONFIG_HOME=""` on Linux | the same base as the user layer (lines 247-250): an empty value falls back to `~/.config` | medium, not executed | PathResolver.XdgEmptyMismatch | PathResolver.DotenvBesideUser |
| src/lib_layered_config/core.py:429-433 | unknown suffixes rank `len(ranking)`, which is less than `len(prefer)` when `prefer` repeats a suffix | `prefer=["toml","toml","json"]`, paths `a.yaml` then `b.json` | unknown suffixes rank after every preferred one (`len(prefer)`), so `b.json` comes first | low, not executed | Core.RepeatedPreferenceTie | Core.OrderPathsSpec |
