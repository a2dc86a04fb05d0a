/**
 * The content-addressed kernel cache: files named by their digest, and one record per reference
 * that says which index the reference last resolved to. Resolving a kernel walks
 * index, manifest, config and layers, each taken from the cache or fetched into it.
 */
module KernelCache {
  import opened Common
  import opened KernelArtifacts
  import Json

  /** A path below the content directory; `resolves` says whether a link or directory leads anywhere. */
  datatype Entry = Regular(bytes: Bytes) | Irregular(resolves: bool)

  datatype Store = Store(content: map<string, Entry>, records: map<string, Bytes>)

  /** What the network answers during one call, and which names can be written. */
  datatype Registry = Registry(
    descriptor: string -> Option<Bytes>,
    manifest: string -> Option<Bytes>,
    blob: string -> Option<Bytes>,
    writable: string -> bool)

  predicate Exists(s: Store, digest: string) {
    digest in s.content && (s.content[digest].Irregular? ==> s.content[digest].resolves)
  }

  function ReadCached(w: World, s: Store, d: Descriptor): (r: Result<Bytes, Error>)
    ensures r.Ok? ==> Matches(w, r.value, d) && Exists(s, d.digest) && s.content[d.digest] == Regular(r.value)
  {
    if !ValidDigest(d.digest) then Err(Invalid)
    else if d.digest !in s.content then Err(ReadFailed(d.digest))
    else if s.content[d.digest].Irregular? then Err(Invalid)
    else if !Matches(w, s.content[d.digest].bytes, d) then Err(Invalid)
    else Ok(s.content[d.digest].bytes)
  }

  // What every operation keeps

  predicate NamedByHash(w: World, s: Store, digest: string) {
    && digest in s.content && s.content[digest].Regular?
    && ValidDigest(digest) && w.hash(s.content[digest].bytes) == digest
  }

  /** Nothing that exists changes, and whatever is new is named by its hash. */
  ghost predicate Grows(w: World, s: Store, t: Store) {
    && (forall d :: Exists(s, d) ==> Exists(t, d) && t.content[d] == s.content[d])
    && (forall d :: Exists(t, d) && !Exists(s, d) ==> NamedByHash(w, t, d))
  }

  predicate SameRecord(s: Store, t: Store, key: string) {
    (key in s.records <==> key in t.records) && (key in s.records ==> s.records[key] == t.records[key])
  }

  lemma GrowsTransitive(w: World, s: Store, t: Store, u: Store)
    requires Grows(w, s, t) && Grows(w, t, u)
    ensures Grows(w, s, u)
  {
    hide ValidDigest;
  }

  lemma ReadStable(w: World, s: Store, t: Store, d: Descriptor)
    requires Grows(w, s, t) && ReadCached(w, s, d).Ok?
    ensures ReadCached(w, t, d) == ReadCached(w, s, d)
  {
    assert Exists(s, d.digest);
  }

  // Where content comes from

  /** The cache alone, or the cache with the network behind it. */
  datatype View = Offline(w: World, store: Store) | Online(w: World, store: Store, net: Registry)

  function At(repository: string, digest: string): string {
    repository + "@" + digest
  }

  function Fetched(net: Registry, reference: string, manifest: bool): Option<Bytes> {
    if manifest then net.manifest(reference) else net.blob(reference)
  }

  /** The content a descriptor stands for. */
  function Get(v: View, d: Descriptor, repository: string, manifest: bool): (r: Result<Bytes, Error>)
    ensures r.Ok? ==> Matches(v.w, r.value, d) && ValidDigest(d.digest)
  {
    if v.Offline? || Exists(v.store, d.digest) then ReadCached(v.w, v.store, d)
    else if !ValidDigest(d.digest) then Err(Invalid)
    else
      var bytes := Fetched(v.net, At(repository, d.digest), manifest);
      if bytes.None? then Err(Oras(At(repository, d.digest)))
      else if !Matches(v.w, bytes.value, d) then Err(Invalid)
      else Ok(bytes.value)
  }

  /** A reference answered both as a manifest and as a blob, under one digest, has one content. */
  ghost predicate Consistent(w: World, net: Registry) {
    forall reference ::
      net.manifest(reference).Some? && net.blob(reference).Some?
      && w.hash(net.manifest(reference).value) == w.hash(net.blob(reference).value) ==>
        net.manifest(reference) == net.blob(reference)
  }

  ghost predicate AllWritable(net: Registry) {
    forall name :: net.writable(name)
  }

  function WithStore(v: View, s: Store): View {
    v.(store := s)
  }

  /** Everything new in the cache is what the network answers for its digest. */
  ghost predicate Fills(w: World, net: Registry, repository: string, s: Store, t: Store) {
    && Grows(w, s, t)
    && forall d :: Exists(t, d) && !Exists(s, d) ==> Answered(net, At(repository, d), t.content[d])
  }

  predicate Answered(net: Registry, reference: string, e: Entry) {
    e.Regular? && (net.manifest(reference) == Some(e.bytes) || net.blob(reference) == Some(e.bytes))
  }

  lemma FillsTransitive(w: World, net: Registry, repository: string, s: Store, t: Store, u: Store)
    requires Fills(w, net, repository, s, t) && Fills(w, net, repository, t, u)
    ensures Fills(w, net, repository, s, u)
  {
    hide ValidDigest, Answered, At;
    GrowsTransitive(w, s, t, u);
  }

  /** A later state of the cache behind a view: grown, and online only by what the network answers. */
  ghost predicate Ahead(v: View, repository: string, t: Store) {
    Grows(v.w, v.store, t) && (v.Online? ==> Fills(v.w, v.net, repository, v.store, t) && Consistent(v.w, v.net))
  }

  /** What can be had stays the same while the cache fills up. */
  lemma GetStable(v: View, t: Store, d: Descriptor, repository: string, manifest: bool)
    requires Ahead(v, repository, t) && Get(v, d, repository, manifest).Ok?
    ensures Get(WithStore(v, t), d, repository, manifest) == Get(v, d, repository, manifest)
  {
    if v.Offline? || Exists(v.store, d.digest) {
      ReadStable(v.w, v.store, t, d);
    } else if Exists(t, d.digest) {
      assert NamedByHash(v.w, t, d.digest);
      assert Answered(v.net, At(repository, d.digest), t.content[d.digest]);
    }
  }

  // Resolving a reference, as a function of the view

  datatype Artifact = Artifact(path: string, identity: Json.Value)

  function LocalIdentity(h: Host, digest: string, size: nat): Json.Value {
    Json.Obj(map[
               "source" := Json.Str("local"),
               "architecture" := Json.Str(KernelArchitecture(h)),
               "descriptor" := Json.Obj(map["digest" := Json.Str(digest), "size" := Json.Int(size)])])
  }

  function Platform(h: Host): Json.Value {
    Json.Obj(map["os" := Json.Str("linux"), "architecture" := Json.Str(OciArchitecture(h))])
  }

  function OciIdentity(reference: string, h: Host, index: Descriptor, manifest: Descriptor, a: Artifacts): Json.Value {
    Json.Obj(map[
               "source" := Json.Str("oci"),
               "reference" := Json.Str(reference),
               "platform" := Platform(h),
               "index" := index.value,
               "manifest" := manifest.value,
               "config" := a.config.value,
               "layers" := Json.Arr(seq(|a.layers|, i requires 0 <= i < |a.layers| => a.layers[i].value))])
  }

  /** The kernel's path after the first `n` layers, all of them at hand. */
  function Layers(v: View, layers: seq<Descriptor>, repository: string, h: Host, p: Profile, n: nat): Result<Option<string>, Error>
    requires n <= |layers|
  {
    if n == 0 then Ok(None)
    else
      var kernel :- Layers(v, layers, repository, h, p, n - 1);
      var layer := layers[n - 1];
      var bytes :- Get(v, layer, repository, false);
      if layer.mediaType != ImageType(p) then Ok(kernel)
      else if !KernelOk(bytes, h) then Err(Invalid)
      else Ok(Some(layer.digest))
  }

  datatype Request = Request(reference: string, host: Host, profile: Profile)

  function FromArtifacts(v: View, q: Request, repository: string, index: Descriptor, manifest: Descriptor, a: Artifacts)
    : Result<Artifact, Error>
  {
    var config :- Get(v, a.config, repository, false);
    var _ :- CheckConfig(v.w, config, q.host, q.profile);
    var kernel :- Layers(v, a.layers, repository, q.host, q.profile, |a.layers|);
    if kernel.None? then Err(Invalid)
    else Ok(Artifact(kernel.value, OciIdentity(q.reference, q.host, index, manifest, a)))
  }

  /** From the index's content on. */
  function FromIndex(v: View, q: Request, index: Descriptor, bytes: Bytes): Result<Artifact, Error> {
    var manifest :- Selected(v.w, bytes, q.host, q.profile);
    var repository :- Repository(q.reference);
    var content :- Get(v, manifest, repository, true);
    var artifacts :- Manifest(v.w, content, q.host, q.profile);
    FromArtifacts(v, q, repository, index, manifest, artifacts)
  }

  /** From an index descriptor whose content must be in the cache. */
  function FromCachedIndex(v: View, q: Request, index: Descriptor): Result<Artifact, Error> {
    if index.mediaType != INDEX_TYPE then Err(Invalid)
    else
      var bytes :- ReadCached(v.w, v.store, index);
      FromIndex(v, q, index, bytes)
  }

  // Reference records

  function Record(q: Request, index: Descriptor): Json.Value {
    Json.Obj(map["reference" := Json.Str(q.reference), "platform" := Platform(q.host), "index" := index.value])
  }

  function ReadRecord(w: World, s: Store, q: Request): Result<Descriptor, Error> {
    var key := w.key(q.reference);
    if key !in s.records then Err(OfflineCacheMiss(q.reference))
    else
      var record :- Parse(w, s.records[key]);
      var reference :- RequiredString(record, "reference");
      var platform := Json.AsObject(Json.Get(record, "platform"));
      if || reference != q.reference || platform.None?
         || Json.AsStr(Json.Field(platform.value, "os")) != Some("linux")
         || Json.AsStr(Json.Field(platform.value, "architecture")) != Some(OciArchitecture(q.host))
         || Json.Get(record, "index").None?
      then Err(OfflineCacheMiss(q.reference))
      else Describe(Json.Get(record, "index").value)
  }

  /** What an offline resolve answers. */
  function OfflineResolve(w: World, s: Store, q: Request): Result<Artifact, Error> {
    var index :- ReadRecord(w, s, q);
    FromCachedIndex(Offline(w, s), q, index)
  }

  function FetchDescriptor(w: World, net: Registry, reference: string): Result<Descriptor, Error> {
    var bytes := net.descriptor(reference);
    if bytes.None? then Err(Oras(reference))
    else
      var v :- Parse(w, bytes.value);
      Describe(v)
  }

  /** What a resolve answers when the reference is looked up on the network. */
  function FreshResolve(w: World, s: Store, net: Registry, q: Request): Result<Artifact, Error> {
    var index :- FetchDescriptor(w, net, q.reference);
    if index.mediaType != INDEX_TYPE then Err(Invalid)
    else
      var repository :- Repository(q.reference);
      var bytes :- Get(Online(w, s, net), index, repository, true);
      FromIndex(Online(w, s, net), q, index, bytes)
  }

  // An offline answer outlives everything that happens to the rest of the cache

  lemma {:induction false} LayersStable(
    v: View, t: Store, layers: seq<Descriptor>, repository: string, h: Host, p: Profile, n: nat)
    requires n <= |layers| && Ahead(v, repository, t) && Layers(v, layers, repository, h, p, n).Ok?
    ensures Layers(WithStore(v, t), layers, repository, h, p, n) == Layers(v, layers, repository, h, p, n)
  {
    hide Ahead, Get, KernelOk;
    if n > 0 {
      LayersStable(v, t, layers, repository, h, p, n - 1);
      GetStable(v, t, layers[n - 1], repository, false);
    }
  }

  lemma FromArtifactsStable(
    v: View, t: Store, q: Request, repository: string, index: Descriptor, manifest: Descriptor, a: Artifacts)
    requires Ahead(v, repository, t) && FromArtifacts(v, q, repository, index, manifest, a).Ok?
    ensures FromArtifacts(WithStore(v, t), q, repository, index, manifest, a)
            == FromArtifacts(v, q, repository, index, manifest, a)
  {
    hide Ahead, Get, Layers, CheckConfig, OciIdentity;
    GetStable(v, t, a.config, repository, false);
    LayersStable(v, t, a.layers, repository, q.host, q.profile, |a.layers|);
  }

  lemma FromIndexStable(v: View, t: Store, q: Request, index: Descriptor, bytes: Bytes)
    requires FromIndex(v, q, index, bytes).Ok? && Ahead(v, Repository(q.reference).value, t)
    ensures FromIndex(WithStore(v, t), q, index, bytes) == FromIndex(v, q, index, bytes)
  {
    hide Ahead, Get, FromArtifacts, Selected, Repository, Manifest;
    var manifest := Selected(v.w, bytes, q.host, q.profile).value;
    var repository := Repository(q.reference).value;
    GetStable(v, t, manifest, repository, true);
    var content := Get(v, manifest, repository, true).value;
    FromArtifactsStable(v, t, q, repository, index, manifest, Manifest(v.w, content, q.host, q.profile).value);
  }

  /** Growth that leaves the reference's own record alone does not change an offline answer. */
  lemma OfflineStable(w: World, s: Store, t: Store, q: Request)
    requires Grows(w, s, t) && SameRecord(s, t, w.key(q.reference))
    requires OfflineResolve(w, s, q).Ok?
    ensures OfflineResolve(w, t, q) == OfflineResolve(w, s, q)
  {
    hide Grows, FromIndex, ReadCached, Parse, RequiredString, Describe;
    var index := ReadRecord(w, s, q).value;
    assert ReadRecord(w, t, q) == ReadRecord(w, s, q);
    ReadStable(w, s, t, index);
    FromIndexStable(Offline(w, s), t, q, index, ReadCached(w, s, index).value);
  }

  /** Over a whole run of resolves that do not rewrite the record, an offline answer stays. */
  lemma {:induction false} OfflineSurvivesRun(w: World, run: seq<Store>, q: Request)
    requires run != [] && OfflineResolve(w, run[0], q).Ok?
    requires forall i, j :: 0 <= i && j == i + 1 && j < |run| ==> Grows(w, run[i], run[j]) && SameRecord(run[i], run[j], w.key(q.reference))
    ensures OfflineResolve(w, run[|run| - 1], q) == OfflineResolve(w, run[0], q)
  {
    hide OfflineResolve, Grows;
    if |run| > 1 {
      var n := |run| - 1;
      OfflineSurvivesRun(w, run[..n], q);
      OfflineStable(w, run[n - 1], run[n], q);
    }
  }

  /**
   * An offline answer comes from a valid manifest: its config and all its layers are in the cache and
   * verified, and the kernel is its one image layer, bootable on the host.
   */
  lemma OfflineIsVerified(w: World, s: Store, q: Request) returns (content: Bytes, a: Artifacts, i: nat)
    requires OfflineResolve(w, s, q).Ok?
    ensures Manifest(w, content, q.host, q.profile) == Ok(a)
    ensures ReadCached(w, s, a.config).Ok?
    ensures forall k :: 0 <= k < |a.layers| ==> ReadCached(w, s, a.layers[k]).Ok?
    ensures OnlyImage(a.layers, q.profile, i)
    ensures OfflineResolve(w, s, q).value.path == a.layers[i].digest
    ensures KernelOk(ReadCached(w, s, a.layers[i]).value, q.host)
  {
    hide ReadRecord, Selected, Repository, CheckConfig, KernelOk, OciIdentity, ReadCached, ManifestOk, ArtifactsOf, Parse;
    var v := Offline(w, s);
    var index := ReadRecord(w, s, q).value;
    var bytes := ReadCached(w, s, index).value;
    var manifest := Selected(w, bytes, q.host, q.profile).value;
    var repository := Repository(q.reference).value;
    content := Get(v, manifest, repository, true).value;
    a := Manifest(w, content, q.host, q.profile).value;
    i := OneImageLayer(Parse(w, content).value, q.host, q.profile);
    LayersVerified(w, s, a.layers, repository, q.host, q.profile, i, |a.layers|);
  }

  lemma {:induction false} LayersVerified(
    w: World, s: Store, layers: seq<Descriptor>, repository: string, h: Host, p: Profile, i: nat, n: nat)
    requires n <= |layers| && Layers(Offline(w, s), layers, repository, h, p, n).Ok?
    requires OnlyImage(layers, p, i)
    ensures forall k :: 0 <= k < n ==> ReadCached(w, s, layers[k]).Ok?
    ensures Layers(Offline(w, s), layers, repository, h, p, n) == Ok(if i < n then Some(layers[i].digest) else None)
    ensures i < n ==> KernelOk(ReadCached(w, s, layers[i]).value, h)
  {
    hide KernelOk, ReadCached, ImageType;
    if n > 0 {
      LayersVerified(w, s, layers, repository, h, p, i, n - 1);
    }
  }
}
