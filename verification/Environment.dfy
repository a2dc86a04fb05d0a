/** Guest environments: env-file parsing, and merging image defaults, file layers and overrides. */
module Environment {
  import opened Common
  import opened Text

  const MINIMAL_PATH := "/usr/local/sbin:/usr/local/bin:/usr/sbin:/usr/bin:/sbin:/bin"

  type Variables = map<string, string>

  datatype Override = Set(key: string, value: string) | Import(key: string)

  datatype EnvironmentError = Rejected

  // Keys, values and overrides

  predicate KeyOk(key: string) {
    && key != ""
    && (IsLower(key[0]) || IsUpper(key[0]) || key[0] == '_')
    && forall i :: 1 <= i < |key| ==> IsAlphanumeric(key[i]) || key[i] == '_'
  }

  predicate ValueOk(value: string) {
    '\0' !in value
  }

  predicate OverrideOk(o: Override) {
    KeyOk(o.key) && (o.Set? ==> ValueOk(o.value))
  }

  /** An override as it is written on the command line or in a file. */
  function Spelled(o: Override): string {
    match o
    case Set(key, value) => key + "=" + value
    case Import(key) => key
  }

  function ParseOverride(s: string): (r: Result<Override, EnvironmentError>)
    ensures r.Ok? ==> OverrideOk(r.value) && s == Spelled(r.value)
  {
    var i := IndexOf(s, '=');
    if !KeyOk(s[..i]) then Err(Rejected)
    else if i == |s| then Ok(Import(s))
    else if !ValueOk(s[i + 1..]) then Err(Rejected)
    else Ok(Set(s[..i], s[i + 1..]))
  }

  /** Parsing succeeds exactly on the spellings of proper overrides, and undoes the spelling. */
  lemma ParseOverrideIff(s: string, o: Override)
    ensures ParseOverride(s) == Ok(o) <==> OverrideOk(o) && s == Spelled(o)
  {
    hide ValueOk;
    if OverrideOk(o) && s == Spelled(o) {
      assert forall i :: 0 <= i < |o.key| ==> o.key[i] != '=';
      assert s[..|o.key|] == o.key;
      IndexOfIs(s, '=', |o.key|);
      if o.Set? {
        assert s[|o.key| + 1..] == o.value;
      }
    }
  }

  /** The value an override stands for. */
  function ValueOf(o: Override, host: Variables): Option<string> {
    match o
    case Set(_, value) => Some(value)
    case Import(key) => if key in host && ValueOk(host[key]) then Some(host[key]) else None
  }

  function Apply(env: Variables, o: Override, host: Variables): Result<Variables, EnvironmentError> {
    var value := ValueOf(o, host);
    if value.None? then Err(Rejected) else Ok(env[o.key := value.value])
  }

  /** The first `n` overrides, one after the other. */
  function ApplyAll(env: Variables, os: seq<Override>, host: Variables, n: nat): Result<Variables, EnvironmentError>
    requires n <= |os|
  {
    if n == 0 then Ok(env)
    else
      var before :- ApplyAll(env, os, host, n - 1);
      Apply(before, os[n - 1], host)
  }

  // Environment files

  /** Lines end with a newline, or a carriage return and a newline; the last one may lack it. */
  function Lines(s: string): seq<string> {
    if s == "" then []
    else
      var i := IndexOf(s, '\n');
      var line := if i < |s| && i > 0 && s[i - 1] == '\r' then s[..i - 1] else s[..i];
      if i == |s| then [line] else [line] + Lines(s[i + 1..])
  }

  predicate Ignored(line: string) {
    Trim(line) == "" || Trim(line)[0] == '#'
  }

  /** The overrides that the first `n` lines spell, comments and blank lines left out. */
  function FileOverrides(lines: seq<string>, n: nat): Result<seq<Override>, EnvironmentError>
    requires n <= |lines|
  {
    if n == 0 then Ok([])
    else
      var before :- FileOverrides(lines, n - 1);
      if Ignored(lines[n - 1]) then Ok(before)
      else
        var o :- ParseOverride(lines[n - 1]);
        Ok(before + [o])
  }

  predicate LayerOk(layer: Variables) {
    forall key :: key in layer ==> KeyOk(key) && ValueOk(layer[key])
  }

  method ParseFile(contents: string, host: Variables) returns (r: Result<Variables, EnvironmentError>)
    ensures r.Ok? <==>
            && FileOverrides(Lines(contents), |Lines(contents)|).Ok?
            && var os := FileOverrides(Lines(contents), |Lines(contents)|).value;
               ApplyAll(map[], os, host, |os|).Ok?
    ensures r.Ok? ==> var os := FileOverrides(Lines(contents), |Lines(contents)|).value;
                      r == ApplyAll(map[], os, host, |os|) && LayerOk(r.value)
  {
    hide KeyOk, ValueOk, Trim, ParseOverride, Lines, ApplyAll, Ignored;
    var values: Variables := map[];
    var lines := Lines(contents);
    ghost var os: seq<Override> := [];
    NothingApplied(values, host);
    for i := 0 to |lines|
      invariant FileOverrides(lines, i) == Ok(os)
      invariant ApplyAll(map[], os, host, |os|) == Ok(values) && LayerOk(values)
    {
      if Ignored(lines[i]) {
        continue;
      }
      var o := ParseOverride(lines[i]);
      if o.Err? {
        FileFails(lines, i + 1, |lines|);
        return Err(o.error);
      }
      ApplyLast(map[], os, o.value, host);
      ghost var longer := os + [o.value];
      var applied := Apply(values, o.value, host);
      if applied.Err? {
        LaterFails(lines, i + 1, longer, host);
        return Err(applied.error);
      }
      values, os := applied.value, longer;
    }
    if !LayerOk(values) {
      return Err(Rejected);
    }
    return Ok(values);
  }

  lemma NothingApplied(env: Variables, host: Variables)
    ensures ApplyAll(env, [], host, 0) == Ok(env)
  {
  }

  lemma {:induction false} FileFails(lines: seq<string>, n: nat, m: nat)
    requires n <= m <= |lines| && FileOverrides(lines, n).Err?
    ensures FileOverrides(lines, m).Err?
  {
    if n < m {
      hide Ignored, ParseOverride;
      FileFails(lines, n, m - 1);
    }
  }

  lemma ApplyLast(env: Variables, os: seq<Override>, o: Override, host: Variables)
    ensures ApplyAll(env, os + [o], host, |os| + 1) ==
            if ApplyAll(env, os, host, |os|).Err? then ApplyAll(env, os, host, |os|)
            else Apply(ApplyAll(env, os, host, |os|).value, o, host)
  {
    ApplyPrefix(env, os + [o], os, host, |os|);
  }

  /** Only the overrides applied matter. */
  lemma {:induction false} ApplyPrefix(env: Variables, a: seq<Override>, b: seq<Override>, host: Variables, n: nat)
    requires n <= |a| && n <= |b| && a[..n] == b[..n]
    ensures ApplyAll(env, a, host, n) == ApplyAll(env, b, host, n)
  {
    if n > 0 {
      assert a[..n - 1] == a[..n][..n - 1] && b[..n - 1] == b[..n][..n - 1];
      assert a[n - 1] == a[..n][n - 1] == b[..n][n - 1] == b[n - 1];
      ApplyPrefix(env, a, b, host, n - 1);
    }
  }

  lemma {:induction false} ApplyFails(env: Variables, os: seq<Override>, host: Variables, n: nat, m: nat)
    requires n <= m <= |os| && ApplyAll(env, os, host, n).Err?
    ensures ApplyAll(env, os, host, m).Err?
  {
    if n < m {
      ApplyFails(env, os, host, n, m - 1);
    }
  }

  /** When an override fails, the whole file fails, whatever follows. */
  lemma {:induction false} LaterFails(lines: seq<string>, n: nat, os: seq<Override>, host: Variables)
    requires n <= |lines| && FileOverrides(lines, n) == Ok(os) && ApplyAll(map[], os, host, |os|).Err?
    ensures FileOverrides(lines, |lines|).Ok? ==>
              var all := FileOverrides(lines, |lines|).value; ApplyAll(map[], all, host, |all|).Err?
    decreases |lines| - n
  {
    hide Ignored, ParseOverride;
    if n < |lines| && FileOverrides(lines, n + 1).Ok? {
      if !Ignored(lines[n]) {
        ApplyLast(map[], os, ParseOverride(lines[n]).value, host);
      }
      LaterFails(lines, n + 1, FileOverrides(lines, n + 1).value, host);
    } else if n < |lines| {
      FileFails(lines, n + 1, |lines|);
    }
  }

  // Merging

  predicate OciEntryOk(entry: string) {
    var i := IndexOf(entry, '=');
    i < |entry| && KeyOk(entry[..i]) && ValueOk(entry[i + 1..])
  }

  function OciKey(entry: string): string {
    entry[..IndexOf(entry, '=')]
  }

  function OciText(entry: string): string
    requires OciEntryOk(entry)
  {
    entry[IndexOf(entry, '=') + 1..]
  }

  function OciMap(entries: seq<string>, n: nat): Result<Variables, EnvironmentError>
    requires n <= |entries|
  {
    if n == 0 then Ok(map[])
    else
      var before :- OciMap(entries, n - 1);
      if OciEntryOk(entries[n - 1]) then Ok(before[OciKey(entries[n - 1]) := OciText(entries[n - 1])]) else Err(Rejected)
  }

  function LayersMap(env: Variables, layers: seq<Variables>, n: nat): Result<Variables, EnvironmentError>
    requires n <= |layers|
  {
    if n == 0 then Ok(env)
    else
      var before :- LayersMap(env, layers, n - 1);
      if LayerOk(layers[n - 1]) then Ok(before + layers[n - 1]) else Err(Rejected)
  }

  function WithPath(env: Variables): Variables {
    if "PATH" in env then env else env["PATH" := MINIMAL_PATH]
  }

  /** Image defaults, then files, then overrides, then the default search path. */
  function Merged(oci: seq<string>, layers: seq<Variables>, os: seq<Override>, host: Variables)
    : Result<Variables, EnvironmentError>
  {
    var defaults :- OciMap(oci, |oci|);
    var filed :- LayersMap(defaults, layers, |layers|);
    var overridden :- ApplyAll(filed, os, host, |os|);
    Ok(WithPath(overridden))
  }

  method ResolveOci(entries: seq<string>) returns (r: Result<Variables, EnvironmentError>)
    ensures r == OciMap(entries, |entries|)
  {
    hide OciEntryOk;
    var env: Variables := map[];
    for i := 0 to |entries|
      invariant OciMap(entries, i) == Ok(env)
    {
      if !OciEntryOk(entries[i]) {
        OciFails(entries, i + 1);
        return Err(Rejected);
      }
      env := env[OciKey(entries[i]) := OciText(entries[i])];
    }
    return Ok(env);
  }

  lemma {:induction false} OciFails(entries: seq<string>, n: nat)
    requires n <= |entries| && OciMap(entries, n) == Err(Rejected)
    ensures OciMap(entries, |entries|) == Err(Rejected)
    decreases |entries| - n
  {
    if n < |entries| {
      OciFails(entries, n + 1);
    }
  }

  lemma {:induction false} LayersFail(env: Variables, layers: seq<Variables>, n: nat)
    requires n <= |layers| && LayersMap(env, layers, n) == Err(Rejected)
    ensures LayersMap(env, layers, |layers|) == Err(Rejected)
    decreases |layers| - n
  {
    if n < |layers| {
      LayersFail(env, layers, n + 1);
    }
  }

  lemma ErrorIsRejected(env: Variables, os: seq<Override>, host: Variables, n: nat)
    requires n <= |os| && ApplyAll(env, os, host, n).Err?
    ensures ApplyAll(env, os, host, n) == Err(Rejected)
  {
  }

  method Resolve(oci: Option<seq<string>>, layers: seq<Variables>, os: seq<Override>, host: Variables)
    returns (r: Result<Variables, EnvironmentError>)
    ensures r == Merged(if oci.Some? then oci.value else [], layers, os, host)
  {
    hide LayerOk, Apply, OciMap;
    var env: Variables := map[];
    ghost var entries := if oci.Some? then oci.value else [];
    if oci.Some? {
      var defaults := ResolveOci(oci.value);
      if defaults.Err? {
        return Err(defaults.error);
      }
      env := defaults.value;
    } else {
      NoDefaults();
    }
    ghost var start := env;
    for i := 0 to |layers|
      invariant LayersMap(start, layers, i) == Ok(env)
    {
      if !LayerOk(layers[i]) {
        LayersFail(start, layers, i + 1);
        return Err(Rejected);
      }
      env := env + layers[i];
    }
    ghost var filed := env;
    for i := 0 to |os|
      invariant ApplyAll(filed, os, host, i) == Ok(env)
    {
      var applied := Apply(env, os[i], host);
      if applied.Err? {
        ApplyFails(filed, os, host, i + 1, |os|);
        ErrorIsRejected(filed, os, host, |os|);
        return Err(Rejected);
      }
      env := applied.value;
    }
    return Ok(WithPath(env));
  }

  lemma NoDefaults()
    ensures OciMap([], 0) == Ok(map[])
  {
  }

  // The last writer wins

  function OverrideValue(os: seq<Override>, host: Variables, key: string, n: nat): Option<string>
    requires n <= |os|
  {
    if n == 0 then None
    else if os[n - 1].key == key then ValueOf(os[n - 1], host)
    else OverrideValue(os, host, key, n - 1)
  }

  function LayerValue(layers: seq<Variables>, key: string, n: nat): Option<string>
    requires n <= |layers|
  {
    if n == 0 then None else if key in layers[n - 1] then Some(layers[n - 1][key]) else LayerValue(layers, key, n - 1)
  }

  function OciValue(entries: seq<string>, key: string, n: nat): Option<string>
    requires n <= |entries|
  {
    if n == 0 then None
    else if OciEntryOk(entries[n - 1]) && OciKey(entries[n - 1]) == key then Some(OciText(entries[n - 1]))
    else OciValue(entries, key, n - 1)
  }

  function Lookup(env: Variables, key: string): Option<string> {
    if key in env then Some(env[key]) else None
  }

  function Or(a: Option<string>, b: Option<string>): Option<string> {
    if a.Some? then a else b
  }

  lemma {:induction false} OciLookup(entries: seq<string>, n: nat, key: string)
    requires n <= |entries| && OciMap(entries, n).Ok?
    ensures Lookup(OciMap(entries, n).value, key) == OciValue(entries, key, n)
  {
    if n > 0 {
      hide OciEntryOk, OciKey;
      OciLookup(entries, n - 1, key);
    }
  }

  lemma {:induction false} LayersLookup(env: Variables, layers: seq<Variables>, n: nat, key: string)
    requires n <= |layers| && LayersMap(env, layers, n).Ok?
    ensures Lookup(LayersMap(env, layers, n).value, key) == Or(LayerValue(layers, key, n), Lookup(env, key))
  {
    if n > 0 {
      hide LayerOk;
      LayersLookup(env, layers, n - 1, key);
    }
  }

  lemma {:induction false} ApplyLookup(env: Variables, os: seq<Override>, host: Variables, n: nat, key: string)
    requires n <= |os| && ApplyAll(env, os, host, n).Ok?
    ensures Lookup(ApplyAll(env, os, host, n).value, key) == Or(OverrideValue(os, host, key, n), Lookup(env, key))
  {
    if n > 0 {
      ApplyLookup(env, os, host, n - 1, key);
    }
  }

  /** Every variable comes from the last override, else the last file, else the last default that sets it. */
  lemma LastWriterWins(oci: seq<string>, layers: seq<Variables>, os: seq<Override>, host: Variables, key: string)
    requires Merged(oci, layers, os, host).Ok?
    ensures Lookup(Merged(oci, layers, os, host).value, key) ==
            Or(OverrideValue(os, host, key, |os|),
               Or(LayerValue(layers, key, |layers|),
                  Or(OciValue(oci, key, |oci|), if key == "PATH" then Some(MINIMAL_PATH) else None)))
  {
    hide OciMap, LayersMap, ApplyAll, OverrideValue, LayerValue, OciValue;
    var defaults := OciMap(oci, |oci|).value;
    var filed := LayersMap(defaults, layers, |layers|).value;
    OciLookup(oci, |oci|, key);
    LayersLookup(defaults, layers, |layers|, key);
    ApplyLookup(filed, os, host, |os|, key);
  }

  // A file as the last layer is its lines as the first overrides

  /** Overrides do the same to any environment. */
  lemma {:induction false} ApplyUniform(env: Variables, os: seq<Override>, host: Variables, n: nat)
    requires n <= |os|
    ensures ApplyAll(env, os, host, n) ==
            if ApplyAll(map[], os, host, n).Ok? then Ok(env + ApplyAll(map[], os, host, n).value) else Err(Rejected)
  {
    if n == 0 {
      assert env + map[] == env;
    } else {
      ApplyUniform(env, os, host, n - 1);
      var before, o := ApplyAll(map[], os, host, n - 1), os[n - 1];
      if before.Ok? && ValueOf(o, host).Some? {
        assert (env + before.value)[o.key := ValueOf(o, host).value] == env + before.value[o.key := ValueOf(o, host).value];
      }
    }
  }

  lemma {:induction false} ApplyConcat(env: Variables, a: seq<Override>, b: seq<Override>, host: Variables, n: nat)
    requires n <= |b|
    ensures ApplyAll(env, a + b, host, |a| + n) ==
            if ApplyAll(env, a, host, |a|).Ok? then ApplyAll(ApplyAll(env, a, host, |a|).value, b, host, n)
            else ApplyAll(env, a, host, |a|)
  {
    if n == 0 {
      ApplyPrefix(env, a + b, a, host, |a|);
    } else {
      ApplyConcat(env, a, b, host, n - 1);
    }
  }

  lemma {:induction false} LayersPrefix(env: Variables, layers: seq<Variables>, layer: Variables, n: nat)
    requires n <= |layers|
    ensures LayersMap(env, layers + [layer], n) == LayersMap(env, layers, n)
  {
    if n > 0 {
      LayersPrefix(env, layers, layer, n - 1);
    }
  }

  lemma FileIsOverrides(
    oci: seq<string>, layers: seq<Variables>, file: seq<Override>, layer: Variables, os: seq<Override>, host: Variables)
    requires ApplyAll(map[], file, host, |file|) == Ok(layer) && LayerOk(layer)
    ensures Merged(oci, layers + [layer], os, host) == Merged(oci, layers, file + os, host)
  {
    hide OciMap, LayerOk, ApplyAll;
    var defaults := OciMap(oci, |oci|);
    if defaults.Ok? {
      LayersPrefix(defaults.value, layers, layer, |layers|);
      var filed := LayersMap(defaults.value, layers, |layers|);
      if filed.Ok? {
        ApplyUniform(filed.value, file, host, |file|);
        ApplyConcat(filed.value, file, os, host, |os|);
        assert |file + os| == |file| + |os|;
      }
    }
  }

  lemma {:induction false} FileOverridesOk(lines: seq<string>, n: nat)
    requires n <= |lines| && FileOverrides(lines, n).Ok?
    ensures forall i :: 0 <= i < |FileOverrides(lines, n).value| ==> OverrideOk(FileOverrides(lines, n).value[i])
  {
    hide KeyOk, ValueOk, Ignored;
    if n > 0 {
      FileOverridesOk(lines, n - 1);
    }
  }

  lemma {:induction false} AppliedOk(os: seq<Override>, host: Variables, n: nat)
    requires n <= |os| && (forall i :: 0 <= i < |os| ==> OverrideOk(os[i])) && ApplyAll(map[], os, host, n).Ok?
    ensures LayerOk(ApplyAll(map[], os, host, n).value)
  {
    hide KeyOk, ValueOk;
    if n > 0 {
      AppliedOk(os, host, n - 1);
      assert OverrideOk(os[n - 1]);
    }
  }

  /** A parsed env-file as the final layer, or its lines as the first overrides: the same answer, errors included. */
  lemma FileLayerEqualsLines(contents: string, oci: seq<string>, layers: seq<Variables>, os: seq<Override>, host: Variables)
    requires FileOverrides(Lines(contents), |Lines(contents)|).Ok?
    requires var file := FileOverrides(Lines(contents), |Lines(contents)|).value; ApplyAll(map[], file, host, |file|).Ok?
    ensures var file := FileOverrides(Lines(contents), |Lines(contents)|).value;
            var layer := ApplyAll(map[], file, host, |file|).value;
            Merged(oci, layers + [layer], os, host) == Merged(oci, layers, file + os, host)
  {
    hide FileOverrides, Lines, ApplyAll, Merged, LayerOk;
    var file := FileOverrides(Lines(contents), |Lines(contents)|).value;
    FileOverridesOk(Lines(contents), |Lines(contents)|);
    AppliedOk(file, host, |file|);
    FileIsOverrides(oci, layers, file, ApplyAll(map[], file, host, |file|).value, os, host);
  }
}
