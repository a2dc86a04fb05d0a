/**
 * Kernel artifacts as OCI content: descriptors, the index, the platform manifest, the config and
 * the kernel image, each with the checks made before the next one is looked up.
 */
module KernelArtifacts {
  import opened Common
  import opened Text
  import Json

  const INDEX_TYPE := "application/vnd.oci.image.index.v1+json"
  const MANIFEST_TYPE := "application/vnd.oci.image.manifest.v1+json"
  const KCONFIG_TYPE := "application/vnd.silo.kernel.kconfig.v1"
  const SYSTEM_MAP_TYPE := "application/vnd.silo.kernel.system-map.v1"
  const DEBUG_TYPE := "application/vnd.silo.kernel.debug.v1+xz"

  datatype Profile = Workload | Rprobe

  function ArtifactType(p: Profile): string {
    if p == Workload then "application/vnd.silo.kernel.v1" else "application/vnd.silo.rprobe-kernel.v1"
  }

  function ConfigType(p: Profile): string {
    if p == Workload then "application/vnd.silo.kernel.config.v1+json"
    else "application/vnd.silo.rprobe-kernel.config.v1+json"
  }

  function ImageType(p: Profile): string {
    if p == Workload then "application/vnd.silo.kernel.image.v1" else "application/vnd.silo.rprobe-kernel.image.v1"
  }

  datatype Host = Arm64 | Amd64

  function OciArchitecture(h: Host): string {
    if h == Arm64 then "arm64" else "amd64"
  }

  function KernelArchitecture(h: Host): string {
    if h == Arm64 then "arm64" else "x86_64"
  }

  datatype Error =
    | Oras(reference: string)
    | ReadFailed(name: string)
    | WriteFailed(name: string)
    | BadJson
    | Invalid
    | OfflineCacheMiss(reference: string)
    | NotAbsolute
    | UnsafePath

  /** SHA-256 over content and over references, and the JSON reader and writer. */
  datatype World = World(
    hash: Bytes -> string,
    key: string -> string,
    parse: Bytes -> Option<Json.Value>,
    render: Json.Value -> Bytes)

  // Descriptors

  datatype Descriptor = Descriptor(mediaType: string, digest: string, size: nat, value: Json.Value)

  predicate ValidDigest(digest: string) {
    && |digest| == 71 && digest[..7] == "sha256:"
    && forall i :: 7 <= i < 71 ==> IsDigit(digest[i]) || 'a' <= digest[i] <= 'f'
  }

  function RequiredString(v: Json.Value, key: string): Result<string, Error> {
    var s := Json.AsStr(Json.Get(v, key));
    if s.Some? && s.value != "" then Ok(s.value) else Err(Invalid)
  }

  predicate HasString(v: Json.Value, key: string, expected: string) {
    RequiredString(v, key) == Ok(expected)
  }

  predicate HasNumber(v: Json.Value, key: string, expected: nat) {
    Json.AsU64(Json.Get(v, key)) == Some(expected)
  }

  function Describe(v: Json.Value): (r: Result<Descriptor, Error>)
    ensures r.Ok? ==> ValidDigest(r.value.digest) && r.value.size > 0 && r.value.value == v
  {
    var mediaType :- RequiredString(v, "mediaType");
    var digest :- RequiredString(v, "digest");
    if !ValidDigest(digest) then Err(Invalid)
    else
      var size := Json.AsU64(Json.Get(v, "size"));
      if size.None? || size.value == 0 then Err(Invalid)
      else Ok(Descriptor(mediaType, digest, size.value, v))
  }

  predicate DescriptorOk(d: Descriptor) {
    d.mediaType != "" && ValidDigest(d.digest) && 0 < d.size <= U64_MAX
  }

  /** The JSON form of a descriptor, with any further fields. */
  function Encoded(d: Descriptor, more: map<string, Json.Value>): Json.Value {
    Json.Obj(more["mediaType" := Json.Str(d.mediaType)]["digest" := Json.Str(d.digest)]["size" := Json.Int(d.size)])
  }

  /** A value describes content exactly when it is the JSON form of a proper descriptor. */
  lemma DescribeIff(v: Json.Value, d: Descriptor)
    ensures Describe(v) == Ok(d) <==>
            d.value == v && DescriptorOk(d) && v.Obj? && v == Encoded(d, v.fields)
  {
    assert ValidDigest(d.digest) ==> d.digest != "";
    hide ValidDigest;
    if Describe(v) == Ok(d) {
      assert v.fields["mediaType"] == Json.Str(d.mediaType);
      assert v.fields["digest"] == Json.Str(d.digest);
      assert v.fields["size"] == Json.Int(d.size);
      assert v.fields == Encoded(d, v.fields).fields;
    }
    if d.value == v && DescriptorOk(d) && v.Obj? && v == Encoded(d, v.fields) {
      var fields := Encoded(d, v.fields).fields;
      assert fields["mediaType"] == Json.Str(d.mediaType) && fields["digest"] == Json.Str(d.digest);
      assert fields["size"] == Json.Int(d.size);
      assert RequiredString(v, "mediaType") == Ok(d.mediaType);
      assert RequiredString(v, "digest") == Ok(d.digest);
    }
  }

  /** The content has the size and the digest that the descriptor promises. */
  predicate Matches(w: World, bytes: Bytes, d: Descriptor) {
    |bytes| == d.size && w.hash(bytes) == d.digest
  }

  function Parse(w: World, bytes: Bytes): Result<Json.Value, Error> {
    var v := w.parse(bytes);
    if v.Some? then Ok(v.value) else Err(BadJson)
  }

  // The index

  predicate IndexEntryOk(m: Json.Value) {
    Describe(m).Ok? && Describe(m).value.mediaType == MANIFEST_TYPE
  }

  predicate IndexOk(v: Json.Value, p: Profile) {
    && HasNumber(v, "schemaVersion", 2)
    && HasString(v, "mediaType", INDEX_TYPE)
    && HasString(v, "artifactType", ArtifactType(p))
    && var ms := Json.AsArray(Json.Get(v, "manifests"));
    && ms.Some? && ms.value != []
    && forall i :: 0 <= i < |ms.value| ==> IndexEntryOk(ms.value[i])
  }

  predicate ForHost(m: Json.Value, h: Host) {
    var platform := Json.AsObject(Json.Get(m, "platform"));
    && platform.Some?
    && Json.AsStr(Json.Field(platform.value, "os")) == Some("linux")
    && Json.AsStr(Json.Field(platform.value, "architecture")) == Some(OciArchitecture(h))
    && "variant" !in platform.value
  }

  /** The manifests for the host, in order. */
  function Matching(ms: seq<Json.Value>, h: Host): seq<Json.Value> {
    if ms == [] then []
    else
      var n := |ms| - 1;
      Matching(ms[..n], h) + if ForHost(ms[n], h) then [ms[n]] else []
  }

  function SelectManifest(v: Json.Value, h: Host): Result<Descriptor, Error> {
    var ms := Json.AsArray(Json.Get(v, "manifests"));
    if ms.None? then Err(Invalid)
    else
      var found := Matching(ms.value, h);
      if |found| != 1 then Err(Invalid) else Describe(found[0])
  }

  lemma {:induction false} NoneMatching(ms: seq<Json.Value>, h: Host)
    ensures Matching(ms, h) == [] <==> forall i :: 0 <= i < |ms| ==> !ForHost(ms[i], h)
  {
    if ms != [] {
      hide ForHost;
      NoneMatching(ms[..|ms| - 1], h);
    }
  }

  ghost predicate OnlyForHost(ms: seq<Json.Value>, h: Host, i: int) {
    0 <= i < |ms| && forall j :: 0 <= j < |ms| ==> (ForHost(ms[j], h) <==> j == i)
  }

  lemma {:induction false} OneMatching(ms: seq<Json.Value>, h: Host)
    ensures |Matching(ms, h)| == 1 <==> exists i :: OnlyForHost(ms, h, i)
    ensures forall i :: OnlyForHost(ms, h, i) ==> Matching(ms, h) == [ms[i]]
  {
    if ms != [] {
      hide ForHost;
      var n := |ms| - 1;
      OneMatching(ms[..n], h);
      NoneMatching(ms[..n], h);
      if ForHost(ms[n], h) {
        assert Matching(ms[..n], h) == [] ==> OnlyForHost(ms, h, n);
        assert forall i :: OnlyForHost(ms, h, i) ==> i == n;
      } else {
        assert forall i :: OnlyForHost(ms, h, i) <==> OnlyForHost(ms[..n], h, i);
      }
    }
  }

  /** A manifest is selected exactly when one index entry, and no other, is for the host. */
  lemma SelectsTheOne(v: Json.Value, p: Profile, h: Host)
    requires IndexOk(v, p)
    ensures var ms := Json.AsArray(Json.Get(v, "manifests")).value;
            && (SelectManifest(v, h).Ok? <==> exists i :: OnlyForHost(ms, h, i))
            && (forall i :: OnlyForHost(ms, h, i) ==> SelectManifest(v, h) == Describe(ms[i]))
  {
    hide ForHost, Describe, Matching;
    var ms := Json.AsArray(Json.Get(v, "manifests")).value;
    OneMatching(ms, h);
    if |Matching(ms, h)| == 1 {
      var i :| OnlyForHost(ms, h, i);
      assert IndexEntryOk(ms[i]);
    }
  }

  /** From index bytes to the platform manifest's descriptor. */
  function Selected(w: World, bytes: Bytes, h: Host, p: Profile): Result<Descriptor, Error> {
    var v :- Parse(w, bytes);
    if !IndexOk(v, p) then Err(Invalid) else SelectManifest(v, h)
  }

  // The platform manifest

  datatype Artifacts = Artifacts(config: Descriptor, layers: seq<Descriptor>)

  datatype LayerKind = Image | Kconfig | SystemMap | Debug

  function KindOf(p: Profile, mediaType: string): Option<LayerKind> {
    if mediaType == ImageType(p) then Some(Image)
    else if mediaType == KCONFIG_TYPE then Some(Kconfig)
    else if mediaType == SYSTEM_MAP_TYPE then Some(SystemMap)
    else if mediaType == DEBUG_TYPE then Some(Debug)
    else None
  }

  predicate LayerOk(p: Profile, layer: Json.Value) {
    Describe(layer).Ok? && KindOf(p, Describe(layer).value.mediaType).Some?
  }

  predicate IsLayer(p: Profile, layer: Json.Value, kind: LayerKind) {
    Describe(layer).Ok? && KindOf(p, Describe(layer).value.mediaType) == Some(kind)
  }

  /** How many of the first `n` layers are of a kind. */
  function Count(p: Profile, layers: seq<Json.Value>, kind: LayerKind, n: nat): (c: nat)
    requires n <= |layers|
    ensures c <= n
  {
    if n == 0 then 0
    else Count(p, layers, kind, n - 1) + if IsLayer(p, layers[n - 1], kind) then 1 else 0
  }

  predicate LayersOk(layers: seq<Json.Value>, h: Host, p: Profile) {
    && (forall i :: 0 <= i < |layers| ==> LayerOk(p, layers[i]))
    && Count(p, layers, Image, |layers|) == 1
    && Count(p, layers, Kconfig, |layers|) == 1
    && Count(p, layers, SystemMap, |layers|) == 1
    && Count(p, layers, Debug, |layers|) == (if h == Arm64 then 1 else 0)
  }

  function Described(layers: seq<Json.Value>): seq<Descriptor>
    requires forall i :: 0 <= i < |layers| ==> Describe(layers[i]).Ok?
  {
    seq(|layers|, i requires 0 <= i < |layers| => Describe(layers[i]).value)
  }

  predicate ManifestHeadOk(v: Json.Value, p: Profile) {
    && HasNumber(v, "schemaVersion", 2)
    && HasString(v, "mediaType", MANIFEST_TYPE)
    && HasString(v, "artifactType", ArtifactType(p))
    && var config := Json.Get(v, "config");
    && config.Some? && Describe(config.value).Ok?
    && Describe(config.value).value.mediaType == ConfigType(p)
  }

  predicate ManifestOk(v: Json.Value, h: Host, p: Profile) {
    && ManifestHeadOk(v, p)
    && var layers := Json.AsArray(Json.Get(v, "layers"));
    && layers.Some? && LayersOk(layers.value, h, p)
  }

  function ArtifactsOf(v: Json.Value, h: Host, p: Profile): Artifacts
    requires ManifestOk(v, h, p)
  {
    assert forall i :: 0 <= i < |Json.Get(v, "layers").value.items| ==> LayerOk(p, Json.Get(v, "layers").value.items[i]);
    Artifacts(Describe(Json.Get(v, "config").value).value, Described(Json.Get(v, "layers").value.items))
  }

  /** Counts the layers of each kind, giving up at the first that is malformed, unsupported or a second image. */
  method ValidateLayers(layers: seq<Json.Value>, h: Host, p: Profile) returns (r: Result<seq<Descriptor>, Error>)
    ensures r.Ok? <==> LayersOk(layers, h, p)
    ensures r.Ok? ==> (forall i :: 0 <= i < |layers| ==> Describe(layers[i]).Ok?) && r.value == Described(layers)
    ensures r.Err? ==> r.error == Invalid
  {
    hide Describe, KindOf, Count;
    CountNothing(p, layers);
    var kernel: Option<Descriptor> := None;
    var kconfig, systemMap, debug := 0, 0, 0;
    var descriptors: seq<Descriptor> := [];
    for i := 0 to |layers|
      invariant forall k :: 0 <= k < i ==> LayerOk(p, layers[k])
      invariant |descriptors| == i && forall k :: 0 <= k < i ==> descriptors[k] == Describe(layers[k]).value
      invariant Count(p, layers, Image, i) == if kernel.Some? then 1 else 0
      invariant Count(p, layers, Kconfig, i) == kconfig
      invariant Count(p, layers, SystemMap, i) == systemMap
      invariant Count(p, layers, Debug, i) == debug
    {
      var layer := Describe(layers[i]);
      if layer.Err? {
        assert !LayerOk(p, layers[i]);
        return Err(DescribeError(layers[i]));
      }
      CountStep(p, layers, i);
      match KindOf(p, layer.value.mediaType) {
        case Some(Image) =>
          if kernel.Some? {
            CountGrows(p, layers, Image, i + 1);
            return Err(Invalid);
          }
          kernel := Some(layer.value);
        case Some(Kconfig) => kconfig := kconfig + 1;
        case Some(SystemMap) => systemMap := systemMap + 1;
        case Some(Debug) => debug := debug + 1;
        case None =>
          assert !LayerOk(p, layers[i]);
          return Err(Invalid);
      }
      descriptors := descriptors + [layer.value];
    }
    if kernel.None? || kconfig != 1 || systemMap != 1 || debug != (if h == Arm64 then 1 else 0) {
      return Err(Invalid);
    }
    assert forall k :: 0 <= k < |layers| ==> LayerOk(p, layers[k]) && Describe(layers[k]).Ok?;
    return Ok(descriptors);
  }

  function DescribeError(v: Json.Value): (e: Error)
    requires Describe(v).Err?
    ensures e == Invalid
  {
    Describe(v).error
  }

  lemma CountNothing(p: Profile, layers: seq<Json.Value>)
    ensures forall kind :: Count(p, layers, kind, 0) == 0
  {
  }

  lemma CountStep(p: Profile, layers: seq<Json.Value>, n: nat)
    requires n < |layers| && Describe(layers[n]).Ok?
    ensures forall kind ::
              Count(p, layers, kind, n + 1) ==
              Count(p, layers, kind, n) + if KindOf(p, Describe(layers[n]).value.mediaType) == Some(kind) then 1 else 0
  {
    hide Describe, KindOf;
  }

  lemma {:induction false} CountGrows(p: Profile, layers: seq<Json.Value>, kind: LayerKind, n: nat)
    requires n <= |layers|
    ensures Count(p, layers, kind, n) <= Count(p, layers, kind, |layers|)
    decreases |layers| - n
  {
    if n < |layers| {
      CountGrows(p, layers, kind, n + 1);
    }
  }

  method ValidateManifest(v: Json.Value, h: Host, p: Profile) returns (r: Result<Artifacts, Error>)
    ensures r == if ManifestOk(v, h, p) then Ok(ArtifactsOf(v, h, p)) else Err(Invalid)
  {
    hide LayersOk, Describe, HasNumber, HasString;
    if !ManifestHeadOk(v, p) {
      return Err(Invalid);
    }
    var layers := Json.AsArray(Json.Get(v, "layers"));
    if layers.None? {
      return Err(Invalid);
    }
    var descriptors := ValidateLayers(layers.value, h, p);
    if descriptors.Err? {
      return Err(Invalid);
    }
    return Ok(Artifacts(Describe(Json.Get(v, "config").value).value, descriptors.value));
  }

  /** From manifest bytes to the config and layer descriptors. */
  function Manifest(w: World, bytes: Bytes, h: Host, p: Profile): Result<Artifacts, Error> {
    var v :- Parse(w, bytes);
    if ManifestOk(v, h, p) then Ok(ArtifactsOf(v, h, p)) else Err(Invalid)
  }

  ghost predicate OnlyImage(layers: seq<Descriptor>, p: Profile, i: nat) {
    i < |layers| && forall j :: 0 <= j < |layers| ==> (layers[j].mediaType == ImageType(p) <==> j == i)
  }

  /** An accepted manifest has exactly one image layer. */
  lemma OneImageLayer(v: Json.Value, h: Host, p: Profile) returns (i: nat)
    requires ManifestOk(v, h, p)
    ensures OnlyImage(ArtifactsOf(v, h, p).layers, p, i)
  {
    hide Describe, HasNumber, HasString, ManifestHeadOk;
    var layers := Json.Get(v, "layers").value.items;
    i := CountedOnce(p, layers, Image, |layers|);
    assert forall j :: 0 <= j < |layers| ==> LayerOk(p, layers[j]);
  }

  lemma {:induction false} CountedOnce(p: Profile, layers: seq<Json.Value>, kind: LayerKind, n: nat) returns (i: nat)
    requires n <= |layers| && Count(p, layers, kind, n) == 1
    ensures i < n && forall j :: 0 <= j < n ==> (IsLayer(p, layers[j], kind) <==> j == i)
  {
    hide IsLayer;
    if IsLayer(p, layers[n - 1], kind) {
      i := n - 1;
      CountedNever(p, layers, kind, n - 1);
    } else {
      i := CountedOnce(p, layers, kind, n - 1);
    }
  }

  lemma {:induction false} CountedNever(p: Profile, layers: seq<Json.Value>, kind: LayerKind, n: nat)
    requires n <= |layers| && Count(p, layers, kind, n) == 0
    ensures forall j :: 0 <= j < n ==> !IsLayer(p, layers[j], kind)
  {
    hide IsLayer;
    if n > 0 {
      CountedNever(p, layers, kind, n - 1);
    }
  }

  // The config

  predicate ConfigOk(v: Json.Value, h: Host, p: Profile) {
    && (p == Rprobe ==> HasString(v, "profile", "rprobe") && HasString(v, "purpose", "rosetta-acquisition-probe"))
    && HasNumber(v, "schemaVersion", 1)
    && HasString(v, "track", "stable")
    && HasString(v, "architecture", KernelArchitecture(h))
    && var platform := Json.AsObject(Json.Get(v, "platform"));
    && platform.Some?
    && Json.AsStr(Json.Field(platform.value, "os")) == Some("linux")
    && Json.AsStr(Json.Field(platform.value, "architecture")) == Some(OciArchitecture(h))
    && var kernel := Json.AsObject(Json.Get(v, "kernel"));
    && kernel.Some?
    && Json.AsStr(Json.Field(kernel.value, "mediaType")) == Some(ImageType(p))
    && Json.AsStr(Json.Field(kernel.value, "format")) == Some(if h == Arm64 then "arm64-image" else "elf")
    && var source := Json.AsObject(Json.Get(v, "source"));
    && source.Some?
    && var digest := Json.AsStr(Json.Field(source.value, "digest"));
    && digest.Some? && ValidDigest(digest.value)
  }

  function CheckConfig(w: World, bytes: Bytes, h: Host, p: Profile): Result<bool, Error> {
    var v :- Parse(w, bytes);
    if ConfigOk(v, h, p) then Ok(true) else Err(Invalid)
  }

  // The kernel image

  predicate KernelOk(bytes: Bytes, h: Host) {
    && |bytes| >= 64
    && match h
       case Arm64 => bytes[0x38..0x3C] == [0x41, 0x52, 0x4D, 0x64]
       case Amd64 =>
         && bytes[..4] == [0x7F, 0x45, 0x4C, 0x46] && bytes[4] == 2 && bytes[5] == 1 && bytes[6] == 1
         && (bytes[18] as int) + 256 * (bytes[19] as int) == 62
  }

  // References

  /** Where the last component of a name starts, counting its slash. */
  function LastStart(name: string): (start: nat)
    ensures start <= |name|
    ensures forall i :: start < i < |name| ==> name[i] != '/'
    ensures start > 0 ==> start < |name| && name[start] == '/'
  {
    var slash := LastIndexOf(name, '/');
    assert slash.Some? ==> forall i :: slash.value < i < |name| ==> name[i] == name[slash.value + 1..][i - slash.value - 1];
    if slash.Some? then slash.value else 0
  }

  /** A name without its tag. */
  function Tagless(name: string): (r: string)
    ensures r <= name
  {
    var start := LastStart(name);
    var tag := LastIndexOf(name[start..], ':');
    if tag.Some? then name[..start + tag.value] else name
  }

  /** The reference without its digest and its tag. */
  function Repository(reference: string): (r: Result<string, Error>)
    ensures r.Ok? ==> r.value != "" && r.value <= reference
  {
    var repository := Tagless(reference[..IndexOf(reference, '@')]);
    if repository == "" || !NoSpace(repository) then Err(Invalid) else Ok(repository)
  }

  predicate NoSpace(s: string) {
    forall i :: 0 <= i < |s| ==> !IsWhitespace(s[i])
  }

  /** Every colon has a slash after it, so none of them starts a tag. */
  predicate Untagged(s: string) {
    forall i :: 0 <= i < |s| && s[i] == ':' ==> SlashAfter(s, i)
  }

  predicate SlashAfter(s: string, i: nat) {
    exists j :: i < j < |s| && s[j] == '/'
  }

  function Name(repository: string, tag: Option<string>): string {
    repository + if tag.Some? then ":" + tag.value else ""
  }

  /** A reference spelled as a repository, a tag if any, and a digest if any. */
  predicate Cut(reference: string, repository: string, tag: Option<string>, digest: Option<string>) {
    && reference == Name(repository, tag) + (if digest.Some? then "@" + digest.value else "")
    && '@' !in Name(repository, tag)
    && (if tag.Some? then '/' !in tag.value && ':' !in tag.value else Untagged(repository))
  }

  lemma UntaggedStays(name: string)
    requires Untagged(name)
    ensures Tagless(name) == name
  {
    hide LastStart, LastIndexOf;
    var start := LastStart(name);
    forall i | start <= i < |name| ensures name[i] != ':' {
      assert !SlashAfter(name, i);
    }
  }

  /** A tag without slash or colon is what follows the last colon of the last component. */
  lemma TaggedIsCut(repository: string, tag: string)
    requires '/' !in tag && ':' !in tag
    ensures Tagless(repository + ":" + tag) == repository
  {
    hide LastStart, LastIndexOf;
    var name, colon := repository + ":" + tag, |repository|;
    assert forall i :: colon < i < |name| ==> name[i] == tag[i - colon - 1];
    var start := LastStart(name);
    assert start <= colon;
    var last := name[start..];
    assert last[colon - start] == ':' && last[colon - start + 1..] == tag;
    LastIndexOfIs(last, ':', colon - start);
  }

  lemma TaglessOf(repository: string, tag: Option<string>)
    requires if tag.Some? then '/' !in tag.value && ':' !in tag.value else Untagged(repository)
    ensures Tagless(Name(repository, tag)) == repository
  {
    hide Tagless, Untagged;
    if tag.None? {
      assert Name(repository, tag) == repository;
      UntaggedStays(repository);
    } else {
      TaggedIsCut(repository, tag.value);
      assert Name(repository, tag) == repository + ":" + tag.value;
    }
  }

  lemma TaglessCuts(name: string) returns (tag: Option<string>)
    ensures name == Name(Tagless(name), tag)
    ensures if tag.Some? then '/' !in tag.value && ':' !in tag.value else Untagged(Tagless(name))
  {
    hide LastStart, LastIndexOf;
    var start := LastStart(name);
    var last := name[start..];
    var colon := LastIndexOf(last, ':');
    if colon.Some? {
      var at := start + colon.value;
      tag := Some(name[at + 1..]);
      assert name[at + 1..] == last[colon.value + 1..];
    } else {
      tag := None;
      assert forall k :: start <= k < |name| ==> name[k] == last[k - start];
      forall i | 0 <= i < |name| && name[i] == ':' ensures SlashAfter(name, i) {
        assert name[start] == '/';
      }
    }
  }

  lemma RepositoryCuts(reference: string, repository: string)
    requires Repository(reference) == Ok(repository)
    ensures exists tag, digest :: Cut(reference, repository, tag, digest)
  {
    hide NoSpace, Untagged, Tagless, LastIndexOf, IndexOf;
    var at := IndexOf(reference, '@');
    var name := reference[..at];
    var tag := TaglessCuts(name);
    var digest := if at < |reference| then Some(reference[at + 1..]) else None;
    assert Cut(reference, repository, tag, digest);
  }

  /** The repository is what is left when the digest and then the tag are cut off, and nothing else. */
  lemma RepositoryIff(reference: string, repository: string)
    ensures Repository(reference) == Ok(repository) <==>
            && repository != "" && NoSpace(repository)
            && exists tag, digest :: Cut(reference, repository, tag, digest)
  {
    hide NoSpace, Untagged, Tagless, LastIndexOf, IndexOf;
    if Repository(reference) == Ok(repository) {
      RepositoryCuts(reference, repository);
    }
    if tag, digest :| Cut(reference, repository, tag, digest) {
      var name := Name(repository, tag);
      assert reference[..|name|] == name;
      IndexOfIs(reference, '@', |name|);
      TaglessOf(repository, tag);
    }
  }
}
