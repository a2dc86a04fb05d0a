/**
 * An installed runtime: the directory tree the SDK accepts, decided by walking it and by counting
 * the files that its manifest lists.
 */
module RuntimeTree {
  import opened Common

  const MANIFEST := "runtime-manifest.json"
  const MAX_MANIFEST := 0x10_0000

  const MODE_644 := 420
  const MODE_755 := 493

  datatype Target = DarwinArm64 | LinuxAmd64 | LinuxArm64

  const FILES: map<string, nat> := map[
    MANIFEST := MODE_644,
    "bin/silo-vmm" := MODE_755,
    "bin/netd" := MODE_755,
    "assets/kernel-default" := MODE_644,
    "assets/initramfs" := MODE_644,
    "assets/agent" := MODE_755,
    "THIRD_PARTY_NOTICES" := MODE_644,
    "LICENSES/APACHE-2.0.txt" := MODE_644]

  const DIRECTORIES: set<string> := {"bin", "assets", "LICENSES"}

  function FileMode(path: string, target: Target): Option<nat> {
    if path in FILES then Some(FILES[path])
    else if target == DarwinArm64 && path == "assets/rprobe" then Some(MODE_644)
    else None
  }

  /** What is at a path below the root; anything but a directory or a regular file is special. */
  datatype Node = Directory(mode: nat) | File(mode: nat, bytes: Bytes) | Special

  datatype Root = Absent | NotDirectory | Tree(mode: nat, nodes: map<string, Node>)

  datatype Manifest = Manifest(version: string, target: Target, files: map<string, string>)

  /** The SDK's version, SHA-256 in hexadecimal, and the strict manifest decoder. */
  datatype Release = Release(version: string, hash: Bytes -> string, decode: Bytes -> Option<Manifest>)

  // What a valid installation is

  predicate NodeExpected(path: string, node: Node, target: Target) {
    if node.Directory? then path in DIRECTORIES && node.mode == MODE_755 else FileMode(path, target).Some?
  }

  predicate RequiredPresent(nodes: map<string, Node>) {
    forall path :: path in FILES ==> path in nodes && nodes[path].File? && nodes[path].mode == FILES[path]
  }

  ghost predicate WellShaped(root: Root, target: Target) {
    && root.Tree? && root.mode == MODE_755
    && (forall path :: path in root.nodes ==> NodeExpected(path, root.nodes[path], target))
    && RequiredPresent(root.nodes)
  }

  /** The paths the manifest has to account for. */
  function Listable(nodes: map<string, Node>): set<string> {
    set path | path in nodes && !nodes[path].Directory? && path != MANIFEST
  }

  predicate FileOk(path: string, node: Node, target: Target) {
    node.File? && FileMode(path, target) == Some(node.mode)
  }

  predicate Accounted(w: Release, m: Manifest, path: string, node: Node) {
    node.File? && path in m.files && |m.files[path]| == 64 && w.hash(node.bytes) == m.files[path]
  }

  function ReadManifest(w: Release, nodes: map<string, Node>, target: Target): Option<Manifest> {
    if MANIFEST !in nodes || !nodes[MANIFEST].File? || |nodes[MANIFEST].bytes| > MAX_MANIFEST then None
    else
      var m := w.decode(nodes[MANIFEST].bytes);
      if m.None? || m.value.version != w.version || m.value.target != target then None else m
  }

  /** The files are those of the manifest, and the manifest; every digest matches. */
  ghost predicate MatchesManifest(w: Release, nodes: map<string, Node>, target: Target) {
    var m := ReadManifest(w, nodes, target);
    && m.Some?
    && (forall path :: path in nodes && !nodes[path].Directory? ==> FileOk(path, nodes[path], target))
    && m.value.files.Keys == Listable(nodes)
    && (forall path :: path in Listable(nodes) ==> Accounted(w, m.value, path, nodes[path]))
  }

  ghost predicate Valid(w: Release, root: Root, target: Target) {
    WellShaped(root, target) && MatchesManifest(w, root.nodes, target)
  }

  // Deciding it

  /** A walk meets every path once. */
  ghost predicate Walk(visits: seq<string>, nodes: map<string, Node>) {
    Distinct(visits) && ElementsOf(visits) == nodes.Keys
  }

  /** What the walk checks at one path. */
  predicate VisitOk(w: Release, m: Manifest, nodes: map<string, Node>, target: Target, path: string) {
    path in nodes &&
    (nodes[path].Directory? ||
     (FileOk(path, nodes[path], target) && (path == MANIFEST || Accounted(w, m, path, nodes[path]))))
  }

  function ListedBefore(nodes: map<string, Node>, visits: seq<string>, n: nat): set<string>
    requires n <= |visits|
  {
    if n == 0 then {}
    else ListedBefore(nodes, visits, n - 1) + if visits[n - 1] in Listable(nodes) then {visits[n - 1]} else {}
  }

  lemma {:induction false} ListedBeforeMembers(nodes: map<string, Node>, visits: seq<string>, n: nat, path: string)
    requires n <= |visits|
    ensures path in ListedBefore(nodes, visits, n) <==> path in visits[..n] && path in Listable(nodes)
  {
    if n > 0 {
      hide Listable;
      ListedBeforeMembers(nodes, visits, n - 1, path);
      assert visits[..n] == visits[..n - 1] + [visits[n - 1]];
    }
  }

  /** When every visit is fine, the count settles whether the manifest lists anything else. */
  lemma VisitsDecide(w: Release, m: Manifest, nodes: map<string, Node>, target: Target, visits: seq<string>)
    requires Walk(visits, nodes) && ReadManifest(w, nodes, target) == Some(m)
    requires forall k :: 0 <= k < |visits| ==> VisitOk(w, m, nodes, target, visits[k])
    ensures |ListedBefore(nodes, visits, |visits|)| == |m.files| <==> MatchesManifest(w, nodes, target)
  {
    hide FileOk, Accounted, ReadManifest, ListedBefore;
    forall path | path in nodes ensures VisitOk(w, m, nodes, target, path) {
      assert path in ElementsOf(visits);
    }
    var listed := ListedBefore(nodes, visits, |visits|);
    assert visits[..|visits|] == visits;
    forall path ensures path in listed <==> path in Listable(nodes) {
      ListedBeforeMembers(nodes, visits, |visits|, path);
      assert path in visits <==> path in ElementsOf(visits);
    }
    assert listed == Listable(nodes);
    forall path | path in Listable(nodes) ensures path in m.files {
      AccountedIsListed(w, m, path, nodes[path]);
    }
    CountingDecides(listed, m.files);
  }

  /** What rules a match out: no manifest, or a file that is wrong or not accounted for. */
  lemma NotMatching(w: Release, nodes: map<string, Node>, target: Target)
    ensures MatchesManifest(w, nodes, target) ==>
              var m := ReadManifest(w, nodes, target);
              m.Some? && forall path :: path in nodes ==> VisitOk(w, m.value, nodes, target, path)
  {
    hide FileOk, Accounted, ReadManifest;
    assert forall path :: path in Listable(nodes) <==> path in nodes && !nodes[path].Directory? && path != MANIFEST;
  }

  lemma NothingListed(nodes: map<string, Node>, visits: seq<string>)
    ensures |ListedBefore(nodes, visits, 0)| == 0
  {
  }

  /** A new file adds one to the count. */
  lemma ListedStep(nodes: map<string, Node>, visits: seq<string>, n: nat)
    requires Distinct(visits) && n < |visits| && visits[n] in nodes
    ensures |ListedBefore(nodes, visits, n + 1)| ==
            |ListedBefore(nodes, visits, n)| + if !nodes[visits[n]].Directory? && visits[n] != MANIFEST then 1 else 0
  {
    ListedBeforeMembers(nodes, visits, n, visits[n]);
  }

  lemma AccountedIsListed(w: Release, m: Manifest, path: string, node: Node)
    requires Accounted(w, m, path, node)
    ensures path in m.files
  {
  }

  method ValidateManifest(w: Release, nodes: map<string, Node>, target: Target, visits: seq<string>) returns (ok: bool)
    requires Walk(visits, nodes)
    ensures ok <==> MatchesManifest(w, nodes, target)
  {
    hide FileOk, Accounted, ReadManifest, ListedBefore, MatchesManifest;
    var m := ReadManifest(w, nodes, target);
    NotMatching(w, nodes, target);
    if m.None? {
      return false;
    }
    var seen := 0;
    NothingListed(nodes, visits);
    for i := 0 to |visits|
      invariant forall k :: 0 <= k < i ==> VisitOk(w, m.value, nodes, target, visits[k])
      invariant seen == |ListedBefore(nodes, visits, i)|
    {
      var path := visits[i];
      assert path in ElementsOf(visits);
      ListedStep(nodes, visits, i);
      if nodes[path].Directory? {
        continue;
      }
      if !FileOk(path, nodes[path], target) {
        return false;
      }
      if path == MANIFEST {
        continue;
      }
      if !Accounted(w, m.value, path, nodes[path]) {
        return false;
      }
      seen := seen + 1;
    }
    VisitsDecide(w, m.value, nodes, target, visits);
    return seen == |m.value.files|;
  }

  /** Distinct listed files are all the listed files exactly when there are as many. */
  lemma CountingDecides(listed: set<string>, files: map<string, string>)
    requires listed <= files.Keys
    ensures |listed| == |files| <==> listed == files.Keys
  {
    assert |files| == |files.Keys|;
    if |listed| == |files| {
      SubsetOfEqualSize(listed, files.Keys);
    }
  }

  method ValidateInstallation(w: Release, root: Root, target: Target, visits: seq<string>) returns (ok: bool)
    requires root.Tree? ==> Walk(visits, root.nodes)
    ensures ok <==> Valid(w, root, target)
  {
    hide FileMode, MatchesManifest, RequiredPresent, NodeExpected;
    if !root.Tree? || root.mode != MODE_755 {
      return false;
    }
    for i := 0 to |visits|
      invariant forall k :: 0 <= k < i ==> visits[k] in root.nodes && NodeExpected(visits[k], root.nodes[visits[k]], target)
    {
      assert visits[i] in ElementsOf(visits);
      if !NodeExpected(visits[i], root.nodes[visits[i]], target) {
        return false;
      }
    }
    forall path | path in root.nodes ensures NodeExpected(path, root.nodes[path], target) {
      assert path in ElementsOf(visits);
    }
    if !RequiredPresent(root.nodes) {
      return false;
    }
    ok := ValidateManifest(w, root.nodes, target, visits);
  }

  // What validity promises

  /**
   * The manifest determines the installation: two valid ones with the same manifest have the same files,
   * with the same modes and the same digests.
   */
  lemma ManifestDetermines(w: Release, a: Root, b: Root, target: Target, path: string)
    requires Valid(w, a, target) && Valid(w, b, target)
    requires a.nodes[MANIFEST] == b.nodes[MANIFEST]
    ensures path in a.nodes && a.nodes[path].File? <==> path in b.nodes && b.nodes[path].File?
    ensures path in a.nodes && a.nodes[path].File? ==>
              a.nodes[path].mode == b.nodes[path].mode && w.hash(a.nodes[path].bytes) == w.hash(b.nodes[path].bytes)
  {
    hide FileMode, RequiredPresent, NodeExpected;
    assert forall n: map<string, Node> :: path in Listable(n) <==> path in n && !n[path].Directory? && path != MANIFEST;
    assert Listable(a.nodes) == Listable(b.nodes);
    if path in Listable(a.nodes) {
      var m := ReadManifest(w, a.nodes, target).value;
      assert Accounted(w, m, path, a.nodes[path]) && Accounted(w, m, path, b.nodes[path]);
    }
  }

  /** Every file of the runtime is there and, but for the manifest itself, carries its listed digest. */
  lemma RuntimeComplete(w: Release, root: Root, target: Target, path: string)
    requires Valid(w, root, target) && path in FILES
    ensures path in root.nodes && root.nodes[path].File? && root.nodes[path].mode == FILES[path]
    ensures path != MANIFEST ==> Accounted(w, ReadManifest(w, root.nodes, target).value, path, root.nodes[path])
  {
    hide FileMode, NodeExpected;
    if path != MANIFEST {
      assert path in Listable(root.nodes);
    }
  }
}
