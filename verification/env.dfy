/** The environment-variable adapter (adapters/env/default.py): selects the
    variables carrying the application prefix, coerces their text to
    scalars and nests them on `__`.

    The process environment is an input: an insertion-ordered sequence of
    `(name, value)` pairs. Recognising float syntax is left to a predicate
    parameter, since float parsing is not modelled. */
module EnvAdapter {
  import opened Results
  import opened Text
  import opened Tree
  import opened Configuration
  import opened Nesting

  type Environ = seq<(string, string)>

  /** `default_env_prefix(slug)`: dashes become underscores, then
      uppercase. */
  function DefaultEnvPrefix(slug: string): (r: string)
    ensures |r| == |slug|
    ensures '-' !in r
    ensures forall i :: 0 <= i < |r| ==> !('a' <= r[i] <= 'z')
    ensures forall i :: 0 <= i < |slug| ==> r[i] == UpperChar(if slug[i] == '-' then '_' else slug[i])
  {
    Upper(ReplaceChar(slug, '-', '_'))
  }

  /** Building the prefix from a prefix changes nothing. */
  lemma EnvPrefixIdempotent(slug: string)
    ensures DefaultEnvPrefix(DefaultEnvPrefix(slug)) == DefaultEnvPrefix(slug)
  {
    var r := DefaultEnvPrefix(slug);
    assert ReplaceChar(r, '-', '_') == r;
    assert forall i :: 0 <= i < |r| ==> UpperChar(r[i]) == r[i];
  }

  /** `_normalize_prefix`: appends `_` to a non-empty prefix lacking it. */
  function NormalizePrefix(prefix: string): (r: string)
    ensures prefix == "" ==> r == ""
    ensures prefix != "" ==> EndsWith(r, "_") && StartsWith(r, prefix) && |r| <= |prefix| + 1
    ensures EndsWith(prefix, "_") ==> r == prefix
    ensures prefix != "" && !EndsWith(prefix, "_") ==> r == prefix + "_"
  {
    if prefix != "" && !EndsWith(prefix, "_") then prefix + "_" else prefix
  }

  lemma NormalizePrefixIdempotent(prefix: string)
    ensures NormalizePrefix(NormalizePrefix(prefix)) == NormalizePrefix(prefix)
  {
  }

  /** `_iter_namespace_entries`: the variables that start with the prefix,
      the prefix removed, dropping any left empty. */
  function NamespaceEntries(items: Environ, prefix: string): (r: Environ)
    ensures |r| <= |items|
  {
    if items == [] then []
    else
      var (key, value) := items[0];
      var rest := NamespaceEntries(items[1..], prefix);
      if StartsWith(key, prefix) && |key| > |prefix| then [(key[|prefix|..], value)] + rest else rest
  }

  /** An entry comes out exactly when a variable carries the prefix and
      something after it; its name is what follows the prefix. */
  lemma {:induction false} NamespaceMember(items: Environ, prefix: string, e: (string, string))
    ensures e in NamespaceEntries(items, prefix)
            <==> exists i :: 0 <= i < |items| && StartsWith(items[i].0, prefix)
                   && e.0 != "" && items[i].0 == prefix + e.0 && items[i].1 == e.1
    decreases |items|
  {
    if items != [] {
      NamespaceMember(items[1..], prefix, e);
      var key := items[0].0;
      if StartsWith(key, prefix) && |key| > |prefix| {
        assert key == prefix + key[|prefix|..];
      }
      if exists i :: 0 <= i < |items| && StartsWith(items[i].0, prefix)
                   && e.0 != "" && items[i].0 == prefix + e.0 && items[i].1 == e.1 {
        var i :| 0 <= i < |items| && StartsWith(items[i].0, prefix)
                 && e.0 != "" && items[i].0 == prefix + e.0 && items[i].1 == e.1;
        if i > 0 {
          assert items[1..][i - 1] == items[i];
        } else {
          assert items[i].0[|prefix|..] == e.0;
        }
      }
      if e in NamespaceEntries(items[1..], prefix) {
        var i :| 0 <= i < |items[1..]| && StartsWith(items[1..][i].0, prefix)
                 && e.0 != "" && items[1..][i].0 == prefix + e.0 && items[1..][i].1 == e.1;
        assert items[i + 1] == items[1..][i];
      }
    }
  }

  lemma {:induction false} NamespaceAppend(a: Environ, b: Environ, prefix: string)
    ensures NamespaceEntries(a + b, prefix) == NamespaceEntries(a, prefix) + NamespaceEntries(b, prefix)
    decreases |a|
  {
    if a == [] {
      assert a + b == b;
    } else {
      assert (a + b)[0] == a[0] && (a + b)[1..] == a[1..] + b;
      NamespaceAppend(a[1..], b, prefix);
    }
  }

  /** Python's `str.isdigit()` on ASCII: non-empty and all digits. */
  predicate AllDigits(s: string) {
    s != "" && forall i :: 0 <= i < |s| ==> '0' <= s[i] <= '9'
  }

  /** `_looks_like_int`: an optional `-` followed by digits. */
  predicate LooksLikeInt(value: string) {
    if StartsWith(value, "-") then AllDigits(value[1..]) else AllDigits(value)
  }

  /** The number a string of decimal digits denotes. */
  function DigitsValue(s: string): nat
    requires forall i :: 0 <= i < |s| ==> '0' <= s[i] <= '9'
  {
    if s == [] then 0 else 10 * DigitsValue(s[..|s| - 1]) + (s[|s| - 1] as int - '0' as int)
  }

  /** `int(value)` for a value that looks like an integer. */
  function ParseInt(value: string): int
    requires LooksLikeInt(value)
  {
    if StartsWith(value, "-") then -(DigitsValue(value[1..]) as int) else DigitsValue(value)
  }

  /** Decimal digits of `n`, without leading zeros. */
  function ShowNat(n: nat): (r: string)
    ensures AllDigits(r)
  {
    if n < 10 then [('0' as int + n) as char]
    else ShowNat(n / 10) + [('0' as int + n % 10) as char]
  }

  /** `str(n)`. */
  function ShowInt(n: int): string {
    if n < 0 then "-" + ShowNat(-n) else ShowNat(n)
  }

  lemma {:induction false} DigitsOfShow(n: nat)
    ensures DigitsValue(ShowNat(n)) == n
    decreases n
  {
    if n >= 10 {
      DigitsOfShow(n / 10);
      var s := ShowNat(n);
      assert s[..|s| - 1] == ShowNat(n / 10);
    }
  }

  /** `_coerce`: booleans and nulls in any case, then integers, then the
      float check, otherwise the text itself. */
  function Coerce(value: string, isFloat: string -> bool): Value {
    var lowered := Lower(value);
    if lowered == "true" || lowered == "false" then Bool(lowered == "true")
    else if lowered == "null" || lowered == "none" then Null
    else if LooksLikeInt(value) then Int(ParseInt(value))
    else if isFloat(value) then Float(value)
    else Str(value)
  }

  lemma DigitsNotWords(value: string)
    requires LooksLikeInt(value)
    ensures Lower(value) !in {"true", "false", "null", "none"}
  {
    var lowered := Lower(value);
    var i := if StartsWith(value, "-") then 1 else 0;
    assert '0' <= value[i] <= '9';
    assert lowered[i] == value[i];
  }

  /** Which kind of value the text becomes, each kind characterised by the
      text alone. */
  lemma CoerceKinds(value: string, isFloat: string -> bool)
    ensures Coerce(value, isFloat).Bool? <==> Lower(value) in {"true", "false"}
    ensures Coerce(value, isFloat) == Bool(true) <==> Lower(value) == "true"
    ensures Coerce(value, isFloat).Null? <==> Lower(value) in {"null", "none"}
    ensures Coerce(value, isFloat).Int? <==> LooksLikeInt(value)
    ensures Coerce(value, isFloat).Str? ==> Coerce(value, isFloat) == Str(value) && !isFloat(value)
  {
    if LooksLikeInt(value) {
      DigitsNotWords(value);
    }
  }

  lemma ShowNatParses(n: nat)
    ensures !StartsWith(ShowNat(n), "-") && LooksLikeInt(ShowNat(n))
    ensures ParseInt(ShowNat(n)) == n
  {
    var s := ShowNat(n);
    assert s[0] != '-';
    DigitsOfShow(n);
  }

  lemma ShowNegParses(n: nat)
    requires n > 0
    ensures LooksLikeInt("-" + ShowNat(n)) && ParseInt("-" + ShowNat(n)) == -(n as int)
  {
    var s := "-" + ShowNat(n);
    assert StartsWith(s, "-") && s[1..] == ShowNat(n);
    DigitsOfShow(n);
  }

  /** Round trip: the text of any integer coerces back to that integer. */
  lemma CoerceShowInt(n: int, isFloat: string -> bool)
    ensures Coerce(ShowInt(n), isFloat) == Int(n)
  {
    if n < 0 {
      ShowNegParses(-n);
    } else {
      ShowNatParses(n);
    }
    CoerceIntText(ShowInt(n), isFloat);
  }

  lemma CoerceIntText(value: string, isFloat: string -> bool)
    requires LooksLikeInt(value)
    ensures Coerce(value, isFloat) == Int(ParseInt(value))
  {
    DigitsNotWords(value);
  }

  /** A lone `-` is not an integer: `isdigit` is false on the empty rest. */
  lemma LoneDashNotInt(isFloat: string -> bool)
    ensures !LooksLikeInt("-")
    ensures !Coerce("-", isFloat).Int?
  {
    assert StartsWith("-", "-") && "-"[1..] == "";
  }

  /** Applies `assign_nested(collected, key, _coerce(value))` to each
      entry in turn. */
  function AssignAll(acc: Mapping, entries: Environ, isFloat: string -> bool): (r: Result<Mapping, string>)
    decreases |entries|
  {
    if entries == [] then Ok(acc)
    else
      var next :- AssignNested(acc, entries[0].0, Coerce(entries[0].1, isFloat));
      AssignAll(next, entries[1..], isFloat)
  }

  /** `DefaultEnvLoader(environ=...)`: an empty explicit mapping falls back
      to the process environment, as `environ or os.environ` does. */
  function ChooseEnviron(explicit: Environ, process: Environ): (r: Environ)
    ensures explicit != [] ==> r == explicit
    ensures explicit == [] ==> r == process
  {
    if explicit != [] then explicit else process
  }

  /** `DefaultEnvLoader.load(prefix)`; the error is the `ValueError` a
      blocking scalar raises. */
  function Load(environ: Environ, prefix: string, isFloat: string -> bool): Result<Mapping, string> {
    AssignAll([], NamespaceEntries(environ, NormalizePrefix(prefix)), isFloat)
  }

  lemma CoerceLowerKeys(value: string, isFloat: string -> bool)
    ensures LowerKeysValue(Coerce(value, isFloat)) && CaseUniqueValue(Coerce(value, isFloat))
  {
  }

  lemma {:induction false} AssignAllShape(acc: Mapping, entries: Environ, isFloat: string -> bool)
    requires LowerKeysValue(Map(acc)) && CaseUniqueValue(Map(acc))
    ensures AssignAll(acc, entries, isFloat).Ok? ==>
              LowerKeysValue(Map(AssignAll(acc, entries, isFloat).value))
              && CaseUniqueValue(Map(AssignAll(acc, entries, isFloat).value))
    decreases |entries|
  {
    if entries != [] {
      var v := Coerce(entries[0].1, isFloat);
      CoerceLowerKeys(entries[0].1, isFloat);
      var parts := Split(entries[0].0, "__");
      AssignKeepsLower(acc, parts, v);
      AssignKeepsCaseUnique(acc, parts, v);
      var next := AssignNested(acc, entries[0].0, v);
      if next.Ok? {
        AssignAllShape(next.value, entries[1..], isFloat);
      }
    }
  }

  /** Every key the loader produces is lowercase, and no mapping holds two
      keys differing only in case. */
  lemma LoadShape(environ: Environ, prefix: string, isFloat: string -> bool)
    ensures Load(environ, prefix, isFloat).Ok? ==>
              LowerKeysValue(Map(Load(environ, prefix, isFloat).value))
              && CaseUniqueValue(Map(Load(environ, prefix, isFloat).value))
  {
    AssignAllShape([], NamespaceEntries(environ, NormalizePrefix(prefix)), isFloat);
  }

  /** A variable without the prefix does not influence the result. */
  lemma LoadIgnoresUnprefixed(a: Environ, name: string, value: string, b: Environ,
                              prefix: string, isFloat: string -> bool)
    requires !StartsWith(name, NormalizePrefix(prefix))
    ensures Load(a + [(name, value)] + b, prefix, isFloat) == Load(a + b, prefix, isFloat)
  {
    var p := NormalizePrefix(prefix);
    NamespaceAppend(a + [(name, value)], b, p);
    NamespaceAppend(a, [(name, value)], p);
    NamespaceAppend(a, b, p);
    assert NamespaceEntries([(name, value)], p) == [];
    assert NamespaceEntries(a + [(name, value)], p) == NamespaceEntries(a, p);
  }

  lemma {:induction false} AssignAllAppend(acc: Mapping, a: Environ, b: Environ, isFloat: string -> bool)
    ensures AssignAll(acc, a + b, isFloat)
            == if AssignAll(acc, a, isFloat).Err? then AssignAll(acc, a, isFloat)
               else AssignAll(AssignAll(acc, a, isFloat).value, b, isFloat)
    decreases |a|
  {
    if a == [] {
      assert a + b == b;
    } else {
      assert (a + b)[0] == a[0] && (a + b)[1..] == a[1..] + b;
      var next := AssignNested(acc, a[0].0, Coerce(a[0].1, isFloat));
      if next.Ok? {
        AssignAllAppend(next.value, a[1..], b, isFloat);
      }
    }
  }

  /** The last prefixed variable is readable at its lowercased `__` path:
      `SERVICE__TIMEOUT=5` under prefix `APP` yields `service.timeout = 5`. */
  lemma LoadLastReadable(environ: Environ, prefix: string, isFloat: string -> bool)
    requires NamespaceEntries(environ, NormalizePrefix(prefix)) != []
    ensures var entries := NamespaceEntries(environ, NormalizePrefix(prefix));
            var (name, text) := entries[|entries| - 1];
            Load(environ, prefix, isFloat).Ok? ==>
              Resolve(Map(Load(environ, prefix, isFloat).value), LowerAll(Split(name, "__")))
                == Some(Coerce(text, isFloat))
  {
    var entries := NamespaceEntries(environ, NormalizePrefix(prefix));
    var init, last := entries[..|entries| - 1], entries[|entries| - 1];
    assert init + [last] == entries;
    AssignAllAppend([], init, [last], isFloat);
    var before := AssignAll([], init, isFloat);
    if before.Ok? {
      AssignAllShape([], init, isFloat);
      AssignThenResolve(before.value, Split(last.0, "__"), Coerce(last.1, isFloat));
    }
  }
}
