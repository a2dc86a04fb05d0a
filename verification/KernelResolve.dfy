/**
 * The operations on the cache: fetching into it, storing content, recording what a reference
 * resolved to, and the resolve that is made of them.
 */
module KernelResolve {
  import opened Common
  import opened KernelArtifacts
  import opened KernelCache
  import Json

  /** A kernel given by path. */
  datatype LocalFile = Missing | Unsafe | File(bytes: Bytes)

  class Cache {
    const w: World
    var content: map<string, Entry>
    var records: map<string, Bytes>

    constructor (world: World, s: Store)
      ensures w == world && Now() == s
    {
      w, content, records := world, s.content, s.records;
    }

    function Now(): Store
      reads this
    {
      Store(content, records)
    }

    function ViewOf(offline: bool, net: Registry): View
      reads this
    {
      if offline then Offline(w, Now()) else Online(w, Now(), net)
    }

    /** Stores content under its digest; content that is already there is checked, never replaced. */
    method CacheBytes(digest: string, bytes: Bytes, net: Registry) returns (r: Result<string, Error>)
      modifies this
      ensures Grows(w, old(Now()), Now()) && records == old(records)
      ensures r.Ok? ==> r.value == digest && ValidDigest(digest) && w.hash(bytes) == digest
      ensures r.Ok? ==> Exists(Now(), digest) && NamedByHash(w, Now(), digest) && |content[digest].bytes| == |bytes|
      ensures content == if r.Ok? && !Exists(old(Now()), digest) then old(content)[digest := Regular(bytes)] else old(content)
      ensures !Exists(old(Now()), digest) ==>
                (r.Ok? <==> ValidDigest(digest) && w.hash(bytes) == digest && net.writable(digest))
      ensures !Exists(old(Now()), digest) && net.writable(digest) && r.Err? ==> r.error == Invalid
    {
      hide ValidDigest;
      var d := Descriptor("cached content", digest, |bytes|, Json.Null);
      if !Matches(w, bytes, d) || !ValidDigest(digest) {
        return Err(Invalid);
      }
      if Exists(Now(), digest) {
        var found := ReadCached(w, Now(), d);
        if found.Err? {
          return Err(found.error);
        }
        return Ok(digest);
      }
      if !net.writable(digest) {
        return Err(WriteFailed(digest));
      }
      content := content[digest := Regular(bytes)];
      return Ok(digest);
    }

    method FetchOrCachedManifest(d: Descriptor, repository: string, offline: bool, net: Registry)
      returns (r: Result<Bytes, Error>)
      modifies this
      ensures Fills(w, net, repository, old(Now()), Now()) && records == old(records)
      ensures offline ==> content == old(content)
      ensures r.Ok? ==> ReadCached(w, Now(), d) == r
      ensures offline || AllWritable(net) ==> r == Get(old(ViewOf(offline, net)), d, repository, true)
    {
      hide ValidDigest, At;
      if offline {
        return ReadCached(w, Now(), d);
      }
      if !ValidDigest(d.digest) {
        return Err(Invalid);
      }
      if Exists(Now(), d.digest) {
        return ReadCached(w, Now(), d);
      }
      var bytes := net.manifest(At(repository, d.digest));
      if bytes.None? {
        return Err(Oras(At(repository, d.digest)));
      }
      var stored := CacheBytes(d.digest, bytes.value, net);
      if stored.Err? {
        return Err(stored.error);
      }
      if !Matches(w, bytes.value, d) {
        return Err(Invalid);
      }
      return Ok(bytes.value);
    }

    method FetchOrCachedBlob(d: Descriptor, repository: string, offline: bool, net: Registry)
      returns (r: Result<Bytes, Error>)
      modifies this
      ensures Fills(w, net, repository, old(Now()), Now()) && records == old(records)
      ensures offline ==> content == old(content)
      ensures r.Ok? ==> ReadCached(w, Now(), d) == r
      ensures offline || AllWritable(net) ==> r == Get(old(ViewOf(offline, net)), d, repository, false)
    {
      hide ValidDigest, At;
      if offline {
        return ReadCached(w, Now(), d);
      }
      if !ValidDigest(d.digest) {
        return Err(Invalid);
      }
      if Exists(Now(), d.digest) {
        return ReadCached(w, Now(), d);
      }
      var bytes := net.blob(At(repository, d.digest));
      if bytes.None? {
        return Err(Oras(At(repository, d.digest)));
      }
      if !Matches(w, bytes.value, d) {
        return Err(Invalid);
      }
      var stored := CacheBytes(d.digest, bytes.value, net);
      if stored.Err? {
        return Err(stored.error);
      }
      return Ok(bytes.value);
    }

    /** Whether the network and the disk can only do what the starting view foresaw. */
    ghost predicate Foreseen(offline: bool, net: Registry) {
      offline || (AllWritable(net) && Consistent(w, net))
    }

    method FetchLayers(layers: seq<Descriptor>, repository: string, h: Host, p: Profile, offline: bool, net: Registry)
      returns (r: Result<Option<string>, Error>)
      modifies this
      ensures Fills(w, net, repository, old(Now()), Now()) && records == old(records)
      ensures offline ==> content == old(content)
      ensures r.Ok? ==> Layers(Offline(w, Now()), layers, repository, h, p, |layers|) == r
      ensures Foreseen(offline, net) && Layers(old(ViewOf(offline, net)), layers, repository, h, p, |layers|).Ok? ==>
                r == Layers(old(ViewOf(offline, net)), layers, repository, h, p, |layers|)
      ensures offline ==> r == Layers(old(ViewOf(offline, net)), layers, repository, h, p, |layers|)
    {
      hide Grows, Fills, Consistent, Get, KernelOk, ImageType, ReadCached, AllWritable, Layers;
      ghost var start := ViewOf(offline, net);
      var kernel: Option<string> := None;
      FillsNothing(w, net, repository, Now());
      LayersNone(start, layers, repository, h, p);
      LayersNone(Offline(w, Now()), layers, repository, h, p);
      for i := 0 to |layers|
        invariant Fills(w, net, repository, start.store, Now()) && records == old(records)
        invariant offline ==> content == old(content)
        invariant Layers(Offline(w, Now()), layers, repository, h, p, i) == Ok(kernel)
        invariant Foreseen(offline, net) && Layers(start, layers, repository, h, p, |layers|).Ok? ==>
                    Layers(start, layers, repository, h, p, i) == Ok(kernel)
      {
        ghost var before := Now();
        ghost var expected := Foreseen(offline, net) && Layers(start, layers, repository, h, p, |layers|).Ok?;
        var bytes := FetchOrCachedBlob(layers[i], repository, offline, net);
        FillsGrows(w, net, repository, start.store, before);
        FillsGrows(w, net, repository, before, Now());
        FillsTransitive(w, net, repository, start.store, before, Now());
        LayersStep(start, layers, repository, h, p, i);
        LayersStep(Offline(w, Now()), layers, repository, h, p, i);
        if expected {
          LayersPrefix(start, layers, repository, h, p, i + 1, |layers|);
          GetStable(start, before, layers[i], repository, false);
        }
        if bytes.Err? {
          if offline {
            LayersFail(start, layers, repository, h, p, i + 1, |layers|);
          }
          return Err(bytes.error);
        }
        LayersStable(Offline(w, before), Now(), layers, repository, h, p, i);
        OfflineGet(w, Now(), layers[i], repository, false);
        if layers[i].mediaType == ImageType(p) {
          if !KernelOk(bytes.value, h) {
            if offline {
              LayersFail(start, layers, repository, h, p, i + 1, |layers|);
            }
            return Err(Invalid);
          }
          kernel := Some(layers[i].digest);
        }
      }
      return Ok(kernel);
    }

    method ResolveArtifacts(
      q: Request, repository: string, index: Descriptor, manifest: Descriptor, a: Artifacts, offline: bool, net: Registry)
      returns (r: Result<Artifact, Error>)
      modifies this
      ensures Fills(w, net, repository, old(Now()), Now()) && records == old(records)
      ensures offline ==> content == old(content)
      ensures r.Ok? ==> FromArtifacts(Offline(w, Now()), q, repository, index, manifest, a) == r
      ensures Foreseen(offline, net) && FromArtifacts(old(ViewOf(offline, net)), q, repository, index, manifest, a).Ok? ==>
                r == FromArtifacts(old(ViewOf(offline, net)), q, repository, index, manifest, a)
      ensures offline ==> r == FromArtifacts(old(ViewOf(offline, net)), q, repository, index, manifest, a)
    {
      hide Grows, Fills, Consistent, Get, Layers, CheckConfig, OciIdentity, ReadCached, AllWritable;
      ghost var start := ViewOf(offline, net);
      var config := FetchOrCachedBlob(a.config, repository, offline, net);
      if config.Err? {
        return Err(config.error);
      }
      var checked := CheckConfig(w, config.value, q.host, q.profile);
      if checked.Err? {
        return Err(checked.error);
      }
      ghost var before := ViewOf(offline, net);
      var kernel := FetchLayers(a.layers, repository, q.host, q.profile, offline, net);
      FillsGrows(w, net, repository, start.store, before.store);
      FillsGrows(w, net, repository, before.store, Now());
      FillsTransitive(w, net, repository, start.store, before.store, Now());
      if Foreseen(offline, net) && Layers(start, a.layers, repository, q.host, q.profile, |a.layers|).Ok? {
        LayersStable(start, before.store, a.layers, repository, q.host, q.profile, |a.layers|);
      }
      if kernel.Err? {
        return Err(kernel.error);
      }
      if kernel.value.None? {
        return Err(Invalid);
      }
      ReadStable(w, before.store, Now(), a.config);
      OfflineGet(w, Now(), a.config, repository, false);
      return Ok(Artifact(kernel.value.value, OciIdentity(q.reference, q.host, index, manifest, a)));
    }

    method ResolveIndex(q: Request, index: Descriptor, bytes: Bytes, offline: bool, net: Registry)
      returns (r: Result<Artifact, Error>)
      modifies this
      ensures Grows(w, old(Now()), Now()) && records == old(records)
      ensures Repository(q.reference).Ok? ==> Fills(w, net, Repository(q.reference).value, old(Now()), Now())
      ensures offline ==> content == old(content)
      ensures r.Ok? ==> FromIndex(Offline(w, Now()), q, index, bytes) == r
      ensures Foreseen(offline, net) && FromIndex(old(ViewOf(offline, net)), q, index, bytes).Ok? ==>
                r == FromIndex(old(ViewOf(offline, net)), q, index, bytes)
      ensures offline ==> r == FromIndex(old(ViewOf(offline, net)), q, index, bytes)
    {
      hide Grows, Fills, Consistent, Get, FromArtifacts, Selected, Repository, ManifestOk, ArtifactsOf, Parse, ReadCached, AllWritable;
      ghost var start := ViewOf(offline, net);
      GrowsReflexive(w, Now());
      var repository := Repository(q.reference);
      if repository.Ok? {
        FillsNothing(w, net, repository.value, Now());
      }
      var manifest := Selected(w, bytes, q.host, q.profile);
      if manifest.Err? {
        return Err(manifest.error);
      }
      if repository.Err? {
        return Err(repository.error);
      }
      var fetched := FetchOrCachedManifest(manifest.value, repository.value, offline, net);
      FillsGrows(w, net, repository.value, start.store, Now());
      if fetched.Err? {
        return Err(fetched.error);
      }
      var parsed := Parse(w, fetched.value);
      if parsed.Err? {
        return Err(parsed.error);
      }
      var artifacts := ValidateManifest(parsed.value, q.host, q.profile);
      if artifacts.Err? {
        return Err(artifacts.error);
      }
      ghost var before := ViewOf(offline, net);
      r := ResolveArtifacts(q, repository.value, index, manifest.value, artifacts.value, offline, net);
      FillsGrows(w, net, repository.value, before.store, Now());
      FillsTransitive(w, net, repository.value, start.store, before.store, Now());
      FillsGrows(w, net, repository.value, start.store, Now());
      if Foreseen(offline, net) && FromArtifacts(start, q, repository.value, index, manifest.value, artifacts.value).Ok? {
        FromArtifactsStable(start, before.store, q, repository.value, index, manifest.value, artifacts.value);
      }
      if r.Ok? {
        ReadStable(w, before.store, Now(), manifest.value);
        OfflineGet(w, Now(), manifest.value, repository.value, true);
      }
    }

    /** Looks the reference up, keeps its index, and records what it resolved to. */
    method LookUp(q: Request, net: Registry) returns (r: Result<Descriptor, Error>)
      modifies this
      ensures Grows(w, old(Now()), Now())
      ensures r.Ok? ==> Repository(q.reference).Ok? && Fills(w, net, Repository(q.reference).value, old(Now()), Now())
      ensures forall k :: k != w.key(q.reference) ==> SameRecord(old(Now()), Now(), k)
      ensures r.Ok? ==> && FetchDescriptor(w, net, q.reference) == r && r.value.mediaType == INDEX_TYPE
                        && ReadCached(w, Now(), r.value).Ok? && q.reference != ""
                        && w.key(q.reference) in records && records[w.key(q.reference)] == w.render(Record(q, r.value))
      ensures r.Err? ==> records == old(records)
      ensures AllWritable(net) && FreshResolve(w, old(Now()), net, q).Ok? ==>
                && r.Ok?
                && ReadCached(w, Now(), r.value) == Get(old(ViewOf(false, net)), r.value, Repository(q.reference).value, true)
    {
      hide Grows, Fills, Get, FromIndex, Repository, Record, ReadCached, Parse, Describe;
      var index := FetchDescriptor(w, net, q.reference);
      GrowsReflexive(w, Now());
      if index.Err? {
        return Err(index.error);
      }
      if index.value.mediaType != INDEX_TYPE {
        return Err(Invalid);
      }
      var repository := Repository(q.reference);
      if repository.Err? {
        return Err(repository.error);
      }
      ghost var start := Now();
      var fetched := FetchOrCachedManifest(index.value, repository.value, false, net);
      FillsGrows(w, net, repository.value, start, Now());
      if fetched.Err? {
        return Err(fetched.error);
      }
      var key := w.key(q.reference);
      if !net.writable(key) {
        return Err(WriteFailed(key));
      }
      ghost var before := Now();
      records := records[key := w.render(Record(q, index.value))];
      RecordsApart(w, net, repository.value, before, Now());
      ReadIgnoresRecords(w, before, Now(), index.value);
      FillsTransitive(w, net, repository.value, start, before, Now());
      FillsGrows(w, net, repository.value, start, Now());
      return index;
    }

    /**
     * Resolves a reference. Whatever comes out, existing content stays and other references' records
     * stay; what comes out successfully is what an offline resolve then answers.
     */
    method ResolveReference(q: Request, offline: bool, refresh: bool, net: Registry)
      returns (r: Result<Artifact, Error>)
      modifies this
      ensures Grows(w, old(Now()), Now())
      ensures forall k :: k != w.key(q.reference) ==> SameRecord(old(Now()), Now(), k)
      ensures r.Ok? && (UsesRecord(w, old(Now()), q, offline, refresh) || RecordSurvives(w, net, q)) ==>
                OfflineResolve(w, Now(), q) == r
      ensures offline ==> Now() == old(Now()) && r == OfflineResolve(w, old(Now()), q)
      ensures UsesRecord(w, old(Now()), q, offline, refresh) ==>
                && records == old(records)
                && (ReadRecord(w, old(Now()), q).Err? ==> r == Err(ReadRecord(w, old(Now()), q).error))
                && (Foreseen(offline, net) && RecordResolve(old(ViewOf(offline, net)), q).Ok? ==>
                      r == RecordResolve(old(ViewOf(offline, net)), q))
      ensures !UsesRecord(w, old(Now()), q, offline, refresh) ==>
                (Foreseen(false, net) && FreshResolve(w, old(Now()), net, q).Ok? ==> r == FreshResolve(w, old(Now()), net, q))
    {
      hide Grows, Fills, Consistent, Get, FromIndex, ReadRecord, FetchDescriptor, Repository, ReadCached, RecordSurvives, Record, AllWritable;
      ghost var start := ViewOf(offline, net);
      ghost var recorded := UsesRecord(w, Now(), q, offline, refresh);
      GrowsReflexive(w, Now());
      var index: Result<Descriptor, Error>;
      if offline || (!refresh && w.key(q.reference) in records) {
        index := ReadRecord(w, Now(), q);
      } else {
        index := LookUp(q, net);
      }
      if index.Err? {
        return Err(index.error);
      }
      if index.value.mediaType != INDEX_TYPE {
        return Err(Invalid);
      }
      var bytes := ReadCached(w, Now(), index.value);
      if bytes.Err? {
        return Err(bytes.error);
      }
      ghost var before := ViewOf(offline, net);
      r := ResolveIndex(q, index.value, bytes.value, offline, net);
      forall k | k != w.key(q.reference) ensures SameRecord(start.store, Now(), k) {
        assert SameRecord(start.store, before.store, k);
      }
      GrowsTransitive(w, start.store, before.store, Now());
      if Foreseen(offline, net) && FromIndex(start, q, index.value, bytes.value).Ok? {
        NeedsRepository(start, q, index.value, bytes.value);
        FillsNothing(w, net, Repository(q.reference).value, start.store);
        FillsGrows(w, net, Repository(q.reference).value, start.store, before.store);
        FromIndexStable(start, before.store, q, index.value, bytes.value);
      }
      if r.Ok? && (recorded || RecordSurvives(w, net, q)) {
        ReadStable(w, before.store, Now(), index.value);
        if recorded {
          SameRecordReads(w, start.store, Now(), q);
        } else {
          RecordReadsBack(w, Now(), q, net, index.value);
        }
      }
    }

    /** Caches a kernel given by path. */
    method ResolveLocal(h: Host, absolute: bool, file: LocalFile, net: Registry) returns (r: Result<Artifact, Error>)
      modifies this
      ensures Grows(w, old(Now()), Now()) && records == old(records)
      ensures !absolute ==> r == Err(NotAbsolute)
      ensures r.Ok? ==>
                && absolute && file.File? && KernelOk(file.bytes, h)
                && r.value == Artifact(w.hash(file.bytes), LocalIdentity(h, w.hash(file.bytes), |file.bytes|))
                && NamedByHash(w, Now(), r.value.path)
                && (if Exists(old(Now()), r.value.path)
                    then content[r.value.path] == old(content)[r.value.path] && |content[r.value.path].bytes| == |file.bytes|
                    else content[r.value.path] == Regular(file.bytes))
      ensures absolute && file.File? && KernelOk(file.bytes, h) && AllWritable(net) ==>
                (ValidDigest(w.hash(file.bytes)) && !Exists(old(Now()), w.hash(file.bytes)) ==> r.Ok?)
    {
      hide KernelOk, ValidDigest;
      if !absolute {
        return Err(NotAbsolute);
      }
      match file
      case Missing => return Err(ReadFailed(""));
      case Unsafe => return Err(UnsafePath);
      case File(bytes) =>
        if !KernelOk(bytes, h) {
          return Err(Invalid);
        }
        var digest := w.hash(bytes);
        var cached := CacheBytes(digest, bytes, net);
        if cached.Err? {
          return Err(cached.error);
        }
        return Ok(Artifact(cached.value, LocalIdentity(h, digest, |bytes|)));
    }
  }

  /** The record decides, not the network. */
  predicate UsesRecord(w: World, s: Store, q: Request, offline: bool, refresh: bool) {
    offline || (!refresh && w.key(q.reference) in s.records)
  }

  function RecordResolve(v: View, q: Request): Result<Artifact, Error> {
    var index :- ReadRecord(v.w, v.store, q);
    FromCachedIndex(v, q, index)
  }

  /** The JSON reader gives back what the JSON writer wrote. */
  predicate ReadsBack(w: World, v: Json.Value) {
    w.parse(w.render(v)) == Some(v)
  }

  /** The one record that this lookup writes reads back. */
  predicate RecordSurvives(w: World, net: Registry, q: Request) {
    var index := FetchDescriptor(w, net, q.reference);
    index.Ok? ==> ReadsBack(w, Record(q, index.value))
  }

  lemma RecordReadsBack(w: World, s: Store, q: Request, net: Registry, index: Descriptor)
    requires RecordSurvives(w, net, q) && FetchDescriptor(w, net, q.reference) == Ok(index) && q.reference != ""
    requires w.key(q.reference) in s.records && s.records[w.key(q.reference)] == w.render(Record(q, index))
    ensures ReadRecord(w, s, q) == Ok(index)
  {
    hide ReadsBack, ReadRecord;
    assert Describe(index.value) == Ok(index);
    RecordIsPerHost(w, s, q, index, q.host);
  }

  /** A record made for one host is a miss for the other, so a resolve that consults it fails there even online. */
  lemma RecordIsPerHost(w: World, s: Store, q: Request, index: Descriptor, other: Host)
    requires ReadsBack(w, Record(q, index)) && q.reference != "" && Describe(index.value) == Ok(index)
    requires w.key(q.reference) in s.records && s.records[w.key(q.reference)] == w.render(Record(q, index))
    ensures ReadRecord(w, s, q.(host := other)) == if other == q.host then Ok(index) else Err(OfflineCacheMiss(q.reference))
  {
    hide Describe;
  }

  lemma SameRecordReads(w: World, s: Store, t: Store, q: Request)
    requires s.records == t.records
    ensures ReadRecord(w, s, q) == ReadRecord(w, t, q)
  {
  }

  lemma RecordsApart(w: World, net: Registry, repository: string, s: Store, t: Store)
    requires s.content == t.content
    ensures Fills(w, net, repository, s, t)
  {
  }

  lemma ReadIgnoresRecords(w: World, s: Store, t: Store, d: Descriptor)
    requires s.content == t.content
    ensures ReadCached(w, s, d) == ReadCached(w, t, d)
  {
  }

  lemma NeedsRepository(v: View, q: Request, index: Descriptor, bytes: Bytes)
    requires FromIndex(v, q, index, bytes).Ok?
    ensures Repository(q.reference).Ok?
  {
    hide Selected, Repository;
  }

  lemma FillsNothing(w: World, net: Registry, repository: string, s: Store)
    ensures Fills(w, net, repository, s, s)
  {
  }

  lemma FillsGrows(w: World, net: Registry, repository: string, s: Store, t: Store)
    requires Fills(w, net, repository, s, t)
    ensures Grows(w, s, t)
  {
  }

  lemma GrowsReflexive(w: World, s: Store)
    ensures Grows(w, s, s)
  {
  }

  lemma OfflineGet(w: World, s: Store, d: Descriptor, repository: string, manifest: bool)
    ensures Get(Offline(w, s), d, repository, manifest) == ReadCached(w, s, d)
  {
  }

  lemma LayersNone(v: View, layers: seq<Descriptor>, repository: string, h: Host, p: Profile)
    ensures Layers(v, layers, repository, h, p, 0) == Ok(None)
  {
  }

  lemma LayersStep(v: View, layers: seq<Descriptor>, repository: string, h: Host, p: Profile, i: nat)
    requires i < |layers|
    ensures var before := Layers(v, layers, repository, h, p, i);
            var bytes := Get(v, layers[i], repository, false);
            Layers(v, layers, repository, h, p, i + 1) ==
              if before.Err? then before
              else if bytes.Err? then Err(bytes.error)
              else if layers[i].mediaType != ImageType(p) then before
              else if !KernelOk(bytes.value, h) then Err(Invalid)
              else Ok(Some(layers[i].digest))
  {
    hide Get, KernelOk, ImageType;
  }

  lemma {:induction false} LayersPrefix(
    v: View, layers: seq<Descriptor>, repository: string, h: Host, p: Profile, i: nat, n: nat)
    requires i <= n <= |layers| && Layers(v, layers, repository, h, p, n).Ok?
    ensures Layers(v, layers, repository, h, p, i).Ok?
  {
    hide Get, KernelOk, ImageType;
    if i < n {
      LayersPrefix(v, layers, repository, h, p, i, n - 1);
    }
  }

  lemma {:induction false} LayersFail(
    v: View, layers: seq<Descriptor>, repository: string, h: Host, p: Profile, i: nat, n: nat)
    requires i <= n <= |layers| && Layers(v, layers, repository, h, p, i).Err?
    ensures Layers(v, layers, repository, h, p, n) == Layers(v, layers, repository, h, p, i)
  {
    hide Get, KernelOk, ImageType;
    if i < n {
      LayersFail(v, layers, repository, h, p, i, n - 1);
    }
  }
}
