/** Sequences of kernel resolves on one cache, and a store on which an online resolve misses. */
module KernelRuns {
  import opened Common
  import opened Text
  import opened KernelArtifacts
  import opened KernelCache
  import opened KernelResolve
  import Json

  /** One build that resolves a kernel, by reference or by path. */
  datatype Command =
    | ByReference(q: Request, offline: bool, refresh: bool, net: Registry)
    | ByPath(host: Host, absolute: bool, file: LocalFile, net: Registry)

  predicate Spares(w: World, c: Command, key: string) {
    c.ByReference? ==> w.key(c.q.reference) != key
  }

  /** Any builds with other record keys, failing or not, leave an offline answer as it is. */
  method RunAll(cache: Cache, commands: seq<Command>, q: Request)
    requires forall i :: 0 <= i < |commands| ==> Spares(cache.w, commands[i], cache.w.key(q.reference))
    modifies cache
    ensures Grows(cache.w, old(cache.Now()), cache.Now())
    ensures SameRecord(old(cache.Now()), cache.Now(), cache.w.key(q.reference))
    ensures OfflineResolve(cache.w, old(cache.Now()), q).Ok? ==>
              OfflineResolve(cache.w, cache.Now(), q) == OfflineResolve(cache.w, old(cache.Now()), q)
  {
    hide Grows, OfflineResolve, ReadRecord, FreshResolve, RecordResolve, KernelOk, AllWritable;
    ghost var start, key := cache.Now(), cache.w.key(q.reference);
    GrowsReflexive(cache.w, start);
    for i := 0 to |commands|
      invariant Grows(cache.w, start, cache.Now()) && SameRecord(start, cache.Now(), key)
    {
      ghost var before := cache.Now();
      match commands[i] {
        case ByReference(other, offline, refresh, net) =>
          var r := cache.ResolveReference(other, offline, refresh, net);
          assert SameRecord(before, cache.Now(), key);
        case ByPath(host, absolute, file, net) =>
          var r := cache.ResolveLocal(host, absolute, file, net);
      }
      GrowsTransitive(cache.w, start, before, cache.Now());
    }
    if OfflineResolve(cache.w, start, q).Ok? {
      OfflineStable(cache.w, start, cache.Now(), q);
    }
  }

  /** A resolve, any builds with other keys, and an offline resolve: the first and the last answer agree. */
  method ResolveRunResolve(cache: Cache, q: Request, refresh: bool, net: Registry, commands: seq<Command>)
    returns (first: Result<Artifact, Error>, last: Result<Artifact, Error>)
    requires forall i :: 0 <= i < |commands| ==> Spares(cache.w, commands[i], cache.w.key(q.reference))
    modifies cache
    ensures first.Ok? && (UsesRecord(cache.w, old(cache.Now()), q, false, refresh) || RecordSurvives(cache.w, net, q)) ==>
              last == first
  {
    hide OfflineResolve, FreshResolve, RecordResolve, ReadRecord, Grows;
    first := cache.ResolveReference(q, false, refresh, net);
    RunAll(cache, commands, q);
    last := cache.ResolveReference(q, true, false, net);
  }

  // A reference recorded on one architecture

  const REFERENCE := "ghcr.io/vandycknick/silo/kernel:stable"

  function SomeDigest(): (d: string)
    ensures ValidDigest(d)
  {
    "sha256:" + seq(64, _ => '0')
  }

  function SomeIndex(): (d: Descriptor)
    ensures Describe(d.value) == Ok(d) && d.mediaType == INDEX_TYPE
  {
    Descriptor(INDEX_TYPE, SomeDigest(), 1,
               Json.Obj(map["mediaType" := Json.Str(INDEX_TYPE), "digest" := Json.Str(SomeDigest()), "size" := Json.Int(1)]))
  }

  function OnArm(): Request {
    Request(REFERENCE, Arm64, Workload)
  }

  /** A reader and a writer for which this one record reads back. */
  function SomeWorld(): (w: World)
    ensures ReadsBack(w, Record(OnArm(), SomeIndex()))
  {
    World(_ => SomeDigest(), reference => reference, _ => Some(Record(OnArm(), SomeIndex())), _ => [])
  }

  /** What a resolve on arm64 leaves in the records. */
  function RecordedOnArm(): Store {
    Store(map[], map[REFERENCE := SomeWorld().render(Record(OnArm(), SomeIndex()))])
  }

  /** The record is found on arm64, and is a miss for an online resolve without refresh on amd64. */
  lemma RecordedOnArmMissesOnAmd()
    ensures ReadRecord(SomeWorld(), RecordedOnArm(), OnArm()) == Ok(SomeIndex())
    ensures UsesRecord(SomeWorld(), RecordedOnArm(), OnArm().(host := Amd64), false, false)
    ensures ReadRecord(SomeWorld(), RecordedOnArm(), OnArm().(host := Amd64)) == Err(OfflineCacheMiss(REFERENCE))
  {
    hide ReadRecord, Record, SomeIndex;
    RecordIsPerHost(SomeWorld(), RecordedOnArm(), OnArm(), SomeIndex(), Arm64);
    RecordIsPerHost(SomeWorld(), RecordedOnArm(), OnArm(), SomeIndex(), Amd64);
  }

  /** So that resolve fails, whatever the network could have answered. */
  method MissOnline(net: Registry) returns (r: Result<Artifact, Error>)
    ensures r == Err(OfflineCacheMiss(REFERENCE))
  {
    hide ReadRecord, RecordResolve, FreshResolve, OfflineResolve, SomeWorld, RecordedOnArm, Grows;
    RecordedOnArmMissesOnAmd();
    var cache := new Cache(SomeWorld(), RecordedOnArm());
    r := cache.ResolveReference(OnArm().(host := Amd64), false, false, net);
  }
}
