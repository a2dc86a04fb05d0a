/** Building a guest image layer: the checks, the dictionaries, and the archive written from them. */
module ImageBuild {
  import opened Common
  import opened Text
  import opened Paths
  import opened Images

  // When a layer can be built

  predicate HeaderOk(h: Header) {
    0 <= h.mode <= 511 && h.uid >= 0 && h.gid >= 0
  }

  ghost predicate OverlayOk(spec: Spec) {
    && (forall i :: 0 <= i < |OverlayPaths(spec)| ==> PlainPath(OverlayPaths(spec)[i]))
    && Distinct(OverlayPaths(spec))
  }

  ghost predicate RemoveOk(spec: Spec) {
    && (forall i :: 0 <= i < |spec.remove| ==> PlainPath(Stripped(spec.remove[i], false)))
    && Removed(spec) !! ElementsOf(OverlayPaths(spec))
  }

  predicate HeadersOk(spec: Spec) {
    && (forall i :: 0 <= i < |spec.files| ==> HeaderOk(spec.files[i].header))
    && (forall i :: 0 <= i < |spec.dirs| ==> HeaderOk(spec.dirs[i].header))
  }

  ghost predicate AllNamed(ms: seq<Member>) {
    forall i :: 0 <= i < |ms| ==> PlainPath(Stripped(ms[i].name, false))
  }

  ghost predicate PayloadMemberOk(m: Member) {
    && PlainPath(Stripped(m.name, false)) && m.kind != Other
    && (m.kind == Hardlink ==> PlainPath(Stripped(m.link, false)))
  }

  /** The payload of a package: supported members at plain, distinct paths, hard links to plain paths. */
  ghost predicate PackageOk(ms: seq<Member>) {
    PayloadOk(Visible(ms))
  }

  ghost predicate PayloadOk(payload: seq<Member>) {
    && (forall i :: 0 <= i < |payload| ==> PayloadMemberOk(payload[i]))
    && (forall i, j :: 0 <= i < j < |payload| ==> Stripped(payload[i].name, false) != Stripped(payload[j].name, false))
  }

  ghost predicate PackagesOk(packages: seq<seq<Member>>) {
    forall i :: 0 <= i < |packages| ==> PackageOk(packages[i])
  }

  ghost predicate BaseOk(base: seq<Member>) {
    && (forall i :: 0 <= i < |base| && !IsRoot(base[i]) ==> PlainPath(Stripped(base[i].name, true)))
    && (forall i, j :: 0 <= i < j < |base| && !IsRoot(base[i]) && !IsRoot(base[j]) ==>
          Stripped(base[i].name, true) != Stripped(base[j].name, true))
  }

  predicate AppendOk(append: map<string, Bytes>, members: map<string, Entry>) {
    forall p :: p in append ==> p in members && members[p].kind == Regular
  }

  predicate Ancestor(a: string, p: string) {
    0 < |a| < |p| && p[..|a|] == a && p[|a|] == '/'
  }

  /** Nothing but directories above a path. */
  ghost predicate ParentsOk(layer: map<string, Entry>, p: string) {
    forall a :: Ancestor(a, p) && a in layer ==> layer[a].kind == Directory
  }

  function Skipped(spec: Spec): set<string> {
    Removed(spec) + FileMap(spec.files, |spec.files|).Keys + DirMap(spec.dirs, |spec.dirs|).Keys
  }

  /** What packages contribute: nothing that is removed or overlaid. */
  function Payload(spec: Spec): map<string, Entry> {
    PackagesMap(spec.packages, |spec.packages|) - Skipped(spec)
  }

  ghost predicate BuildOk(spec: Spec, base: seq<Member>) {
    && OverlayOk(spec) && RemoveOk(spec) && HeadersOk(spec) && PackagesOk(spec.packages) && BaseOk(base)
    && AppendOk(Appends(spec), BaseMap(base, Appends(spec), |base|))
    && (forall p :: p in OverlayPaths(spec) ==> ParentsOk(Composed(spec, base), p))
    && (forall p :: p in Payload(spec) ==> ParentsOk(Composed(spec, base), p))
  }

  // Dictionaries in insertion order

  ghost predicate Lists(keys: seq<string>, m: map<string, Entry>) {
    Distinct(keys) && ElementsOf(keys) == m.Keys && forall p :: p in m ==> m[p].path == p
  }

  lemma ListsPut(keys: seq<string>, m: map<string, Entry>, e: Entry)
    requires Lists(keys, m)
    ensures Lists(if e.path in m then keys else keys + [e.path], m[e.path := e])
  {
    assert e.path in m <==> e.path in ElementsOf(keys);
  }

  // Checks

  method CheckNames(names: seq<string>) returns (ok: bool)
    ensures ok <==> && (forall i :: 0 <= i < |names| ==> PlainPath(Stripped(names[i], false)))
                    && (forall i, j :: 0 <= i < j < |names| ==> Stripped(names[i], false) != Stripped(names[j], false))
  {
    hide Stripped, PlainPath, GuestPath;
    var seen: set<string> := {};
    for i := 0 to |names|
      invariant seen == set k | 0 <= k < i :: Stripped(names[k], false)
      invariant forall k :: 0 <= k < i ==> PlainPath(Stripped(names[k], false))
      invariant forall k, l :: 0 <= k < l < i ==> Stripped(names[k], false) != Stripped(names[l], false)
    {
      GuestPathIff(names[i], false);
      var path := GuestPath(names[i], false);
      if path.None? || path.value in seen {
        return false;
      }
      seen := seen + {path.value};
    }
    return true;
  }

  function SeenOf(payload: seq<Member>): set<string> {
    set k | 0 <= k < |payload| :: Stripped(payload[k].name, false)
  }

  /** One more member is fine exactly when it is supported and new. */
  lemma PayloadPush(payload: seq<Member>, m: Member)
    ensures PayloadOk(payload + [m]) <==>
            PayloadOk(payload) && PayloadMemberOk(m) && Stripped(m.name, false) !in SeenOf(payload)
    ensures SeenOf(payload + [m]) == SeenOf(payload) + {Stripped(m.name, false)}
  {
    hide Stripped, PayloadMemberOk;
    var longer := payload + [m];
    assert longer[|payload|] == m && forall k :: 0 <= k < |payload| ==> longer[k] == payload[k];
  }

  lemma PayloadPrefix(payload: seq<Member>, longer: seq<Member>)
    requires payload <= longer && PayloadOk(longer)
    ensures PayloadOk(payload)
  {
    hide Stripped, PayloadMemberOk;
  }

  lemma {:induction false} VisibleGrows(ms: seq<Member>, n: nat)
    requires n <= |ms|
    ensures Visible(ms[..n]) <= Visible(ms)
    decreases |ms| - n
  {
    hide StartsWith;
    if n == |ms| {
      assert ms[..n] == ms;
    } else {
      VisibleGrows(ms, n + 1);
      assert ms[..n + 1][..n] == ms[..n];
    }
  }

  lemma VisibleStep(ms: seq<Member>, n: nat)
    requires n < |ms|
    ensures Visible(ms[..n + 1]) == Visible(ms[..n]) + if StartsWith(ms[n].name, ".") then [] else [ms[n]]
  {
    hide StartsWith;
    assert ms[..n + 1][..n] == ms[..n];
  }

  /** Reads one package's payload. */
  method ReadPackage(ms: seq<Member>) returns (ok: bool, payload: seq<Member>)
    ensures ok <==> PackageOk(ms)
    ensures ok ==> payload == Visible(ms) && AllNamed(payload)
  {
    hide Stripped, PlainPath, GuestPath, StartsWith, Visible, PayloadOk, SeenOf;
    payload := [];
    var seen: set<string> := {};
    NoPayload(ms);
    for i := 0 to |ms|
      invariant payload == Visible(ms[..i]) && PayloadOk(payload) && seen == SeenOf(payload)
    {
      var m := ms[i];
      VisibleStep(ms, i);
      if StartsWith(m.name, ".") {
        continue;
      }
      GuestPathIff(m.name, false);
      GuestPathIff(m.link, false);
      PayloadPush(payload, m);
      var path := GuestPath(m.name, false);
      if path.None? || path.value in seen || m.kind == Other || (m.kind == Hardlink && GuestPath(m.link, false).None?) {
        VisibleGrows(ms, i + 1);
        if PackageOk(ms) {
          PayloadPrefix(payload + [m], Visible(ms));
        }
        ok := false;
        return;
      }
      seen := seen + {path.value};
      payload := payload + [m];
    }
    assert ms[..|ms|] == ms;
    PayloadNamed(payload);
    ok := true;
  }

  lemma NoPayload(ms: seq<Member>)
    ensures Visible(ms[..0]) == [] && PayloadOk([]) && SeenOf([]) == {}
  {
  }

  lemma PayloadNamed(payload: seq<Member>)
    requires PayloadOk(payload)
    ensures AllNamed(payload)
  {
    assert forall i :: 0 <= i < |payload| ==> PayloadMemberOk(payload[i]);
  }

  /** Package members by path, the last one winning, without those to be skipped. */
  method CollectPayload(packages: seq<seq<Member>>, skip: set<string>)
    returns (ok: bool, keys: seq<string>, payload: map<string, Entry>)
    ensures ok <==> PackagesOk(packages)
    ensures ok ==> Lists(keys, payload) && payload == PackagesMap(packages, |packages|) - skip
  {
    hide PackageOk, AllNamed, Lists, PackageMap, Visible;
    keys, payload := [], map[];
    ListsNothing();
    for i := 0 to |packages|
      invariant forall k :: 0 <= k < i ==> PackageOk(packages[k])
      invariant Lists(keys, payload) && payload == PackagesMap(packages, i) - skip
    {
      var members;
      ok, members := ReadPackage(packages[i]);
      if !ok {
        return;
      }
      ok, keys, payload := AddPackage(members, skip, keys, payload);
      MinusDistributes(PackagesMap(packages, i), PackageMap(members, |members|), skip);
    }
    ok := true;
  }

  lemma MinusDistributes(a: map<string, Entry>, b: map<string, Entry>, skip: set<string>)
    ensures (a + b) - skip == (a - skip) + (b - skip)
  {
  }

  lemma ListsNothing()
    ensures Lists([], map[])
  {
  }

  /** The payload after one more member. */
  lemma PackageStep(ms: seq<Member>, j: nat, skip: set<string>, payload: map<string, Entry>)
    requires j < |ms|
    ensures var e := PackageEntry(ms[j]);
            var before := payload + (PackageMap(ms, j) - skip);
            payload + (PackageMap(ms, j + 1) - skip) == if e.path in skip then before else before[e.path := e]
  {
    hide PackageEntry;
  }

  method AddPackage(ms: seq<Member>, skip: set<string>, keys: seq<string>, payload: map<string, Entry>)
    returns (ok: bool, keys': seq<string>, payload': map<string, Entry>)
    requires Lists(keys, payload) && payload.Keys !! skip
    ensures ok <==> AllNamed(ms)
    ensures ok ==> Lists(keys', payload') && payload' == payload + (PackageMap(ms, |ms|) - skip)
  {
    hide Stripped, PlainPath, GuestPath, Lists, PackageEntry;
    keys', payload' := keys, payload;
    assert payload == payload + (PackageMap(ms, 0) - skip);
    hide PackageMap;
    for j := 0 to |ms|
      invariant forall k :: 0 <= k < j ==> PlainPath(Stripped(ms[k].name, false))
      invariant Lists(keys', payload') && payload' == payload + (PackageMap(ms, j) - skip)
    {
      GuestPathIff(ms[j].name, false);
      var path := GuestPath(ms[j].name, false);
      if path.None? {
        ok := false;
        return;
      }
      PackageEntryPath(ms[j]);
      PackageStep(ms, j, skip, payload);
      if path.value !in skip {
        var e := PackageEntry(ms[j]);
        ListsPut(keys', payload', e);
        keys' := if e.path in payload' then keys' else keys' + [e.path];
        payload' := payload'[e.path := e];
      }
    }
    ok := true;
  }

  /** Base members by path, in order; no path may come twice. */
  method CollectBase(base: seq<Member>, append: map<string, Bytes>)
    returns (ok: bool, keys: seq<string>, members: map<string, Entry>)
    ensures ok <==> BaseOk(base)
    ensures ok ==> Lists(keys, members) && members == BaseMap(base, append, |base|)
  {
    hide Stripped, PlainPath, GuestPath, Lists;
    keys, members := [], map[];
    ListsNothing();
    for i := 0 to |base|
      invariant forall k :: 0 <= k < i && !IsRoot(base[k]) ==> PlainPath(Stripped(base[k].name, true))
      invariant forall k, l :: 0 <= k < l < i && !IsRoot(base[k]) && !IsRoot(base[l]) ==>
                  Stripped(base[k].name, true) != Stripped(base[l].name, true)
      invariant Lists(keys, members) && members == BaseMap(base, append, i)
    {
      if IsRoot(base[i]) {
        continue;
      }
      GuestPathIff(base[i].name, true);
      var path := GuestPath(base[i].name, true);
      BaseMapKeys(base, append, i, Stripped(base[i].name, true));
      if path.None? || path.value in members {
        ok := false;
        return;
      }
      var e := BaseEntry(base[i], append);
      BaseEntryPath(base[i], append);
      ListsPut(keys, members, e);
      keys := keys + [e.path];
      members := members[e.path := e];
    }
    ok := true;
  }

  lemma PackageEntryPath(m: Member)
    ensures PackageEntry(m).path == Stripped(m.name, false)
  {
  }

  lemma BaseEntryPath(m: Member, append: map<string, Bytes>)
    ensures BaseEntry(m, append).path == Stripped(m.name, true)
  {
  }

  lemma {:induction false} BaseMapKeys(base: seq<Member>, append: map<string, Bytes>, n: nat, p: string)
    requires n <= |base|
    ensures p in BaseMap(base, append, n) <==> exists k :: 0 <= k < n && !IsRoot(base[k]) && Stripped(base[k].name, true) == p
  {
    hide IsRoot, Stripped, BaseEntry;
    if n > 0 {
      BaseMapKeys(base, append, n - 1, p);
      BaseEntryPath(base[n - 1], append);
    }
  }

  /** The path above, for a path without empty components. */
  function Dirname(p: string): (d: string)
    ensures d != "" ==> Ancestor(d, p)
    ensures forall a :: Ancestor(a, p) ==> a == d || Ancestor(a, d)
  {
    var slash := LastIndexOf(p, '/');
    if slash.None? then ""
    else
      var d := p[..slash.value];
      assert forall a :: Ancestor(a, p) ==> |a| <= slash.value by {
        assert forall k :: slash.value < k < |p| ==> p[k] == p[slash.value + 1..][k - slash.value - 1];
      }
      d
  }

  /** Whether each path is a directory. */
  function KindsOf(m: map<string, Entry>): map<string, bool> {
    map p | p in m :: m[p].kind == Directory
  }

  /** The kinds after the first `n` keys have been recorded over those there before. */
  function Marked(kinds: map<string, bool>, keys: seq<string>, m: map<string, Entry>, skip: set<string>, n: nat): map<string, bool>
    requires n <= |keys|
  {
    if n == 0 then kinds
    else
      var before := Marked(kinds, keys, m, skip, n - 1);
      if keys[n - 1] in skip || keys[n - 1] !in m then before else before[keys[n - 1] := m[keys[n - 1]].kind == Directory]
  }

  lemma {:induction false} MarkedAt(kinds: map<string, bool>, keys: seq<string>, m: map<string, Entry>, skip: set<string>, n: nat, p: string)
    requires n <= |keys|
    ensures var r := Marked(kinds, keys, m, skip, n);
            if p in keys[..n] && p in m && p !in skip then p in r && r[p] == (m[p].kind == Directory)
            else (p in r <==> p in kinds) && (p in r ==> r[p] == kinds[p])
  {
    if n > 0 {
      MarkedAt(kinds, keys, m, skip, n - 1, p);
      assert keys[..n] == keys[..n - 1] + [keys[n - 1]];
    }
  }

  lemma MarkedAll(kinds: map<string, bool>, keys: seq<string>, m: map<string, Entry>, skip: set<string>)
    requires Lists(keys, m)
    ensures Marked(kinds, keys, m, skip, |keys|) == kinds + (KindsOf(m) - skip)
  {
    hide Marked;
    assert keys[..|keys|] == keys;
    var r, e := Marked(kinds, keys, m, skip, |keys|), kinds + (KindsOf(m) - skip);
    forall p ensures (p in r <==> p in e) && (p in r ==> r[p] == e[p]) {
      MarkedAt(kinds, keys, m, skip, |keys|, p);
      assert p in keys <==> p in ElementsOf(keys);
    }
  }

  /** Records the kinds of some entries over those recorded before. */
  method MarkKinds(kinds: map<string, bool>, keys: seq<string>, m: map<string, Entry>, skip: set<string>)
    returns (kinds': map<string, bool>)
    requires Lists(keys, m)
    ensures kinds' == kinds + (KindsOf(m) - skip)
  {
    hide KindsOf;
    kinds' := kinds;
    for i := 0 to |keys|
      invariant kinds' == Marked(kinds, keys, m, skip, i)
    {
      assert keys[i] in ElementsOf(keys);
      if keys[i] !in skip {
        kinds' := kinds'[keys[i] := m[keys[i]].kind == Directory];
      }
    }
    MarkedAll(kinds, keys, m, skip);
  }

  lemma KindsSum(a: map<string, Entry>, b: map<string, Entry>)
    ensures KindsOf(a + b) == KindsOf(a) + KindsOf(b)
  {
  }

  lemma KindsMinus(a: map<string, Entry>, skip: set<string>)
    ensures KindsOf(a - skip) == KindsOf(a) - skip
    ensures KindsOf(a).Keys == a.Keys
  {
  }

  lemma LayersOfKinds(b: map<string, bool>, p: map<string, bool>, d: map<string, bool>, f: map<string, bool>, removed: set<string>)
    requires d.Keys !! f.Keys && removed !! d.Keys && removed !! f.Keys
    ensures (b - removed) + (p - (removed + f.Keys + d.Keys)) + f + d == b + p + d + f - removed
  {
  }

  lemma Unmarked(b: map<string, bool>, removed: set<string>)
    ensures map[] + (b - removed) == b - removed && b - {} == b
  {
  }

  /** Recording in that order gives the kinds of the composed layer. */
  lemma KindsParts(b: map<string, Entry>, p: map<string, Entry>, d: map<string, Entry>, f: map<string, Entry>, removed: set<string>)
    requires d.Keys !! f.Keys && removed !! d.Keys && removed !! f.Keys
    ensures (KindsOf(b) - removed) + KindsOf(p - (removed + f.Keys + d.Keys)) + KindsOf(f) + KindsOf(d)
            == KindsOf(b + p + d + f - removed)
  {
    hide KindsOf;
    KindsMinus(p, removed + f.Keys + d.Keys);
    KindsMinus(b + p + d + f, removed);
    KindsMinus(d, {});
    KindsMinus(f, {});
    KindsSum(b + p + d, f);
    KindsSum(b + p, d);
    KindsSum(b, p);
    LayersOfKinds(KindsOf(b), KindsOf(p), KindsOf(d), KindsOf(f), removed);
  }

  /** Fills in what is a directory: base members first, then packages, files and directories over them. */
  method CollectKinds(spec: Spec, base: seq<Member>, keys: seq<string>, members: map<string, Entry>,
                      payloadKeys: seq<string>, payload: map<string, Entry>)
    returns (kinds: map<string, bool>)
    requires OverlayOk(spec) && RemoveOk(spec)
    requires Lists(keys, members) && members == BaseMap(base, Appends(spec), |base|)
    requires Lists(payloadKeys, payload) && payload == Payload(spec)
    ensures kinds == KindsOf(Composed(spec, base))
  {
    hide OverlayOk, RemoveOk, Lists, BaseMap, PackagesMap, FileMap, DirMap, Appends, Removed, PathsOf, KindsOf;
    OverlaysApart(spec);
    var dirs, files := DirMap(spec.dirs, |spec.dirs|), FileMap(spec.files, |spec.files|);
    Unmarked(KindsOf(members), Removed(spec));
    Unmarked(KindsOf(payload), {});
    Unmarked(KindsOf(files), {});
    Unmarked(KindsOf(dirs), {});
    kinds := MarkKinds(map[], keys, members, Removed(spec));
    kinds := MarkKinds(kinds, payloadKeys, payload, {});
    kinds := MarkKinds(kinds, PathsOf(spec.files), files, {});
    kinds := MarkKinds(kinds, PathsOf(spec.dirs), dirs, {});
    KindsParts(members, PackagesMap(spec.packages, |spec.packages|), dirs, files, Removed(spec));
  }

  method CheckParents(kinds: map<string, bool>, p: string, ghost layer: map<string, Entry>) returns (ok: bool)
    requires kinds == KindsOf(layer)
    ensures ok <==> ParentsOk(layer, p)
  {
    hide LastIndexOf, Dirname;
    var parent := Dirname(p);
    while parent != ""
      invariant parent != "" ==> Ancestor(parent, p)
      invariant forall a :: Ancestor(a, p) && a in layer && layer[a].kind != Directory ==> a == parent || Ancestor(a, parent)
      decreases |parent|
    {
      if parent in kinds && !kinds[parent] {
        return false;
      }
      var next := Dirname(parent);
      if next != "" {
        AncestorTransitive(next, parent, p);
      }
      parent := next;
    }
    return true;
  }

  lemma AncestorTransitive(a: string, b: string, c: string)
    requires Ancestor(a, b) && Ancestor(b, c)
    ensures Ancestor(a, c)
  {
  }

  method CheckAllParents(kinds: map<string, bool>, names: seq<string>, ghost layer: map<string, Entry>) returns (ok: bool)
    requires kinds == KindsOf(layer)
    ensures ok <==> forall i :: 0 <= i < |names| ==> ParentsOk(layer, names[i])
  {
    hide ParentsOk, KindsOf;
    for i := 0 to |names|
      invariant forall k :: 0 <= k < i ==> ParentsOk(layer, names[k])
    {
      var fine := CheckParents(kinds, names[i], layer);
      if !fine {
        return false;
      }
    }
    return true;
  }

  // Writing

  function Rows(keys: seq<string>, m: map<string, Entry>): seq<Entry>
    requires forall i :: 0 <= i < |keys| ==> keys[i] in m
  {
    seq(|keys|, i requires 0 <= i < |keys| => m[keys[i]])
  }

  lemma RowsEnumerate(keys: seq<string>, m: map<string, Entry>)
    requires Lists(keys, m)
    ensures (forall i :: 0 <= i < |keys| ==> keys[i] in m) && Enumerates(Rows(keys, m), m)
  {
    forall i | 0 <= i < |keys| ensures keys[i] in m {
      assert keys[i] in ElementsOf(keys);
    }
    var out := Rows(keys, m);
    forall p | p in m ensures Occurs(out, p) {
      assert p in ElementsOf(keys);
      var i :| 0 <= i < |keys| && keys[i] == p;
      assert out[i].path == p;
    }
  }

  /** The entries are the map's, each once, sorted by path. */
  ghost predicate Section(es: seq<Entry>, m: map<string, Entry>) {
    && Enumerates(es, m)
    && forall i, j :: 0 <= i < j < |es| ==> Before(es[i].path, es[j].path)
  }

  lemma SortedRows(keys: seq<string>, m: map<string, Entry>)
    requires Lists(keys, m)
    ensures (forall i :: 0 <= i < |Sort(keys)| ==> Sort(keys)[i] in m) && Section(Rows(Sort(keys), m), m)
  {
    hide Sort, Before, Enumerates;
    SortKeeps(keys);
    SortAscends(keys);
    RowsEnumerate(Sort(keys), m);
  }

  method AddAll(keys: seq<string>, m: map<string, Entry>) returns (out: seq<Entry>)
    requires Lists(keys, m)
    ensures Section(out, m)
  {
    hide Sort, Section, Lists;
    var sorted := Sort(keys);
    SortedRows(keys, m);
    out := [];
    for i := 0 to |sorted|
      invariant out == Rows(sorted, m)[..i]
    {
      out := out + [m[sorted[i]]];
    }
    assert out == Rows(sorted, m);
  }

  function Kept(keys: seq<string>, hidden: set<string>, n: nat): seq<string>
    requires n <= |keys|
  {
    if n == 0 then []
    else Kept(keys, hidden, n - 1) + if keys[n - 1] in hidden then [] else [keys[n - 1]]
  }

  lemma {:induction false} KeptKeeps(keys: seq<string>, hidden: set<string>, n: nat)
    requires n <= |keys| && Distinct(keys)
    ensures Distinct(Kept(keys, hidden, n))
    ensures forall p :: p in Kept(keys, hidden, n) <==> p in keys[..n] && p !in hidden
  {
    if n > 0 {
      KeptKeeps(keys, hidden, n - 1);
      assert keys[..n] == keys[..n - 1] + [keys[n - 1]];
      assert keys[n - 1] !in keys[..n - 1];
    }
  }

  lemma KeptLists(keys: seq<string>, m: map<string, Entry>, hidden: set<string>)
    requires Lists(keys, m)
    ensures Lists(Kept(keys, hidden, |keys|), m - hidden)
  {
    KeptKeeps(keys, hidden, |keys|);
    assert keys[..|keys|] == keys;
    var kept := Kept(keys, hidden, |keys|);
    forall p ensures p in ElementsOf(kept) <==> p in (m - hidden).Keys {
      assert p in keys <==> p in ElementsOf(keys);
    }
  }

  /** Base members that nothing hides are written in their order. */
  method AddBase(keys: seq<string>, m: map<string, Entry>, hidden: set<string>) returns (out: seq<Entry>)
    requires Lists(keys, m)
    ensures Enumerates(out, m - hidden)
  {
    hide Enumerates;
    KeptLists(keys, m, hidden);
    RowsEnumerate(Kept(keys, hidden, |keys|), m - hidden);
    RowsEnumerate(keys, m);
    out := [];
    for i := 0 to |keys|
      invariant |out| == |Kept(keys, hidden, i)|
      invariant forall k :: 0 <= k < |out| ==> Kept(keys, hidden, i)[k] in m - hidden && out[k] == m[Kept(keys, hidden, i)[k]]
    {
      if keys[i] !in hidden {
        out := out + [m[keys[i]]];
      }
    }
    assert out == Rows(Kept(keys, hidden, |keys|), m - hidden);
  }

  // Putting it together

  /** The layer is base members nobody overrides, then packages, directories and files. */
  ghost predicate Layout(out: seq<Entry>, spec: Spec, base: seq<Member>) {
    exists kept, packaged, dirs, files ::
      && out == kept + packaged + dirs + files
      && Enumerates(kept, BaseMap(base, Appends(spec), |base|) - (Skipped(spec) + Payload(spec).Keys))
      && Section(packaged, Payload(spec))
      && Section(dirs, DirMap(spec.dirs, |spec.dirs|))
      && Section(files, FileMap(spec.files, |spec.files|))
  }

  lemma ComposedParts(b: map<string, Entry>, p: map<string, Entry>, d: map<string, Entry>, f: map<string, Entry>, removed: set<string>)
    requires d.Keys !! f.Keys && removed !! d.Keys && removed !! f.Keys
    ensures var skip := removed + f.Keys + d.Keys;
            var payload := p - skip;
            (b - (skip + payload.Keys)) + payload + d + f == b + p + d + f - removed
  {
  }

  /** A layer laid out that way holds the composed image, every path once. */
  lemma LayoutEnumerates(out: seq<Entry>, spec: Spec, base: seq<Member>)
    requires Layout(out, spec, base) && OverlayOk(spec) && RemoveOk(spec)
    ensures Enumerates(out, Composed(spec, base))
  {
    hide BaseMap, PackagesMap, FileMap, DirMap, Removed, Enumerates;
    var b, p := BaseMap(base, Appends(spec), |base|), PackagesMap(spec.packages, |spec.packages|);
    var d, f := DirMap(spec.dirs, |spec.dirs|), FileMap(spec.files, |spec.files|);
    OverlaysApart(spec);
    ComposedParts(b, p, d, f, Removed(spec));
    var kept, packaged, dirs, files :|
      && out == kept + packaged + dirs + files
      && Enumerates(kept, b - (Skipped(spec) + Payload(spec).Keys))
      && Section(packaged, Payload(spec)) && Section(dirs, d) && Section(files, f);
    var m := b - (Skipped(spec) + Payload(spec).Keys);
    EnumeratesConcat(kept, m, packaged, Payload(spec));
    EnumeratesConcat(kept + packaged, m + Payload(spec), dirs, d);
    EnumeratesConcat(kept + packaged + dirs, m + Payload(spec) + d, files, f);
  }

  lemma {:induction false} FileMapKeys(items: seq<Item>, n: nat)
    requires n <= |items|
    ensures FileMap(items, n).Keys == ElementsOf(PathsOf(items)[..n])
  {
    if n > 0 {
      hide Stripped;
      FileMapKeys(items, n - 1);
      assert PathsOf(items)[..n] == PathsOf(items)[..n - 1] + [PathsOf(items)[n - 1]];
    }
  }

  lemma {:induction false} DirMapKeys(items: seq<Item>, n: nat)
    requires n <= |items|
    ensures DirMap(items, n).Keys == ElementsOf(PathsOf(items)[..n])
  {
    if n > 0 {
      hide Stripped;
      DirMapKeys(items, n - 1);
      assert PathsOf(items)[..n] == PathsOf(items)[..n - 1] + [PathsOf(items)[n - 1]];
    }
  }

  /** Overlay files and directories have different paths, and none of them is removed. */
  lemma OverlaysApart(spec: Spec)
    requires OverlayOk(spec)
    ensures var d, f := DirMap(spec.dirs, |spec.dirs|), FileMap(spec.files, |spec.files|);
            && d.Keys !! f.Keys
            && Lists(PathsOf(spec.files), f) && Lists(PathsOf(spec.dirs), d)
            && (RemoveOk(spec) ==> Removed(spec) !! d.Keys && Removed(spec) !! f.Keys)
  {
    hide FileMap, DirMap, Removed, Stripped, PathsOf, PlainPath;
    FileMapKeys(spec.files, |spec.files|);
    DirMapKeys(spec.dirs, |spec.dirs|);
    var a, b, c := PathsOf(spec.files), PathsOf(spec.dirs), PathsOf(spec.append);
    assert a[..|a|] == a && b[..|b|] == b;
    FirstParts(a, b, c);
  }

  lemma FirstParts(a: seq<string>, b: seq<string>, c: seq<string>)
    requires Distinct(a + b + c)
    ensures Distinct(a) && Distinct(b) && ElementsOf(a) !! ElementsOf(b)
    ensures ElementsOf(a) <= ElementsOf(a + b + c) && ElementsOf(b) <= ElementsOf(a + b + c)
  {
    var all := a + b + c;
    assert forall i :: 0 <= i < |a| ==> all[i] == a[i];
    assert forall i :: 0 <= i < |b| ==> all[|a| + i] == b[i];
    DistinctPart(all, 0, |a|);
    DistinctPart(all, |a|, |a| + |b|);
    assert all[0..|a|] == a && all[|a|..|a| + |b|] == b;
  }

  lemma DistinctPart(s: seq<string>, i: nat, j: nat)
    requires Distinct(s) && i <= j <= |s|
    ensures Distinct(s[i..j])
  {
  }

  function RawNames(spec: Spec): seq<string> {
    NamesOf(spec.files) + NamesOf(spec.dirs) + NamesOf(spec.append)
  }

  function NamesOf(items: seq<Item>): (r: seq<string>)
    ensures |r| == |items|
  {
    seq(|items|, i requires 0 <= i < |items| => items[i].name)
  }

  lemma NamesAndPaths(spec: Spec)
    ensures var raw, all := RawNames(spec), OverlayPaths(spec);
            |raw| == |all| && forall i :: 0 <= i < |raw| ==> Stripped(raw[i], false) == all[i]
  {
    hide Stripped;
  }

  method CheckOverlay(spec: Spec) returns (ok: bool)
    ensures ok <==> OverlayOk(spec)
  {
    hide Stripped, PlainPath, OverlayPaths, RawNames;
    ok := CheckNames(RawNames(spec));
    NamesAndPaths(spec);
  }

  method CheckRemove(spec: Spec) returns (ok: bool)
    ensures ok <==> RemoveOk(spec)
  {
    hide Stripped, PlainPath, GuestPath, OverlayPaths;
    for i := 0 to |spec.remove|
      invariant forall k :: 0 <= k < i ==> PlainPath(Stripped(spec.remove[k], false))
    {
      GuestPathIff(spec.remove[i], false);
      if GuestPath(spec.remove[i], false).None? {
        return false;
      }
    }
    return Removed(spec) !! ElementsOf(OverlayPaths(spec));
  }

  /**
   * Builds the layer when everything fits together. It then holds base members overridden by packages
   * overridden by overlays, nothing that is removed, and every path once.
   */
  method Build(spec: Spec, base: seq<Member>) returns (r: Result<seq<Entry>, BuildError>)
    ensures r.Ok? <==> BuildOk(spec, base)
    ensures r.Ok? ==> Enumerates(r.value, Composed(spec, base)) && Layout(r.value, spec, base)
  {
    hide OverlayOk, RemoveOk, HeadersOk, PackagesOk, BaseOk, AppendOk, ParentsOk, Composed, Enumerates, Section,
         BaseMap, PackagesMap, FileMap, DirMap, Appends, Removed, OverlayPaths, Lists, PathsOf, KindsOf;
    var fine := CheckOverlay(spec);
    if !fine {
      return Err(Rejected);
    }
    fine := CheckRemove(spec);
    if !fine || !HeadersOk(spec) {
      return Err(Rejected);
    }
    OverlaysApart(spec);
    var skip := Skipped(spec);
    var packagesOk, payloadKeys, payload := CollectPayload(spec.packages, skip);
    if !packagesOk {
      return Err(Rejected);
    }
    var append := Appends(spec);
    var baseOk, keys, members := CollectBase(base, append);
    if !baseOk || !AppendOk(append, members) {
      return Err(Rejected);
    }
    ghost var layer := Composed(spec, base);
    var kinds := CollectKinds(spec, base, keys, members, payloadKeys, payload);
    fine := CheckAllParents(kinds, OverlayPaths(spec), layer);
    if !fine {
      return Err(Rejected);
    }
    fine := CheckAllParents(kinds, payloadKeys, layer);
    ListsAll(payloadKeys, payload, layer);
    if !fine {
      return Err(Rejected);
    }
    var kept := AddBase(keys, members, skip + payload.Keys);
    var packaged := AddAll(payloadKeys, payload);
    var dirs := AddAll(PathsOf(spec.dirs), DirMap(spec.dirs, |spec.dirs|));
    var files := AddAll(PathsOf(spec.files), FileMap(spec.files, |spec.files|));
    var out := kept + packaged + dirs + files;
    assert Layout(out, spec, base);
    LayoutEnumerates(out, spec, base);
    return Ok(out);
  }

  lemma ListsAll(keys: seq<string>, m: map<string, Entry>, layer: map<string, Entry>)
    requires Lists(keys, m)
    ensures (forall i :: 0 <= i < |keys| ==> ParentsOk(layer, keys[i])) <==> (forall p :: p in m ==> ParentsOk(layer, p))
  {
    hide ParentsOk;
    forall p ensures p in m <==> p in keys {
      assert p in keys <==> p in ElementsOf(keys);
    }
  }

  // What a built layer promises

  /** No entry of the layer is at a path that was asked to be removed. */
  lemma RemovedNeverOccur(spec: Spec, base: seq<Member>, out: seq<Entry>, i: nat, k: nat)
    requires Enumerates(out, Composed(spec, base)) && i < |out| && k < |spec.remove|
    ensures out[i].path != Stripped(spec.remove[k], false)
  {
    hide Stripped, BaseMap, PackagesMap, FileMap, DirMap;
    assert Stripped(spec.remove[k], false) in Removed(spec);
  }

  /** An overlaid file is in the layer as given, whatever packages and base say. */
  lemma OverlayWins(spec: Spec, base: seq<Member>, k: nat)
    requires OverlayOk(spec) && RemoveOk(spec) && k < |spec.files|
    ensures var e := FileEntry(spec.files[k]); e.path in Composed(spec, base) && Composed(spec, base)[e.path] == e
  {
    hide BaseMap, PackagesMap, DirMap, Removed, Stripped, OverlayPaths, FileMap;
    OverlaysApart(spec);
    FileMapHas(spec.files, |spec.files|, k);
  }

  lemma {:induction false} FileMapHas(items: seq<Item>, n: nat, k: nat)
    requires k < n <= |items| && Distinct(PathsOf(items))
    ensures var e := FileEntry(items[k]); e.path in FileMap(items, n) && FileMap(items, n)[e.path] == e
  {
    hide Stripped;
    if k < n - 1 {
      FileMapHas(items, n - 1, k);
      assert PathsOf(items)[k] != PathsOf(items)[n - 1];
    }
  }

  /** Text is appended to a base file unless a package carries that path: then the package's file is used as it is. */
  lemma AppendOrPackage(spec: Spec, base: seq<Member>, k: nat, text: nat)
    requires BuildOk(spec, base) && k < |base| && !IsRoot(base[k]) && text < |spec.append|
    requires Stripped(base[k].name, true) == Stripped(spec.append[text].name, false)
    ensures var p := Stripped(base[k].name, true);
            var packages := PackagesMap(spec.packages, |spec.packages|);
            && p in Composed(spec, base)
            && (p in packages ==> Composed(spec, base)[p] == packages[p])
            && (p !in packages ==> Composed(spec, base)[p].data == Appended(DataOf(base[k]), spec.append[text].data))
  {
    hide PackagesMap, Removed, Stripped, FileMap, DirMap, BaseMap, AppendOk, ParentsOk, HeadersOk, PackagesOk, DataOf;
    var p := Stripped(base[k].name, true);
    AppendApart(spec, text);
    BaseMapHas(base, Appends(spec), |base|, k);
    AppendMapHas(spec.append, |spec.append|, text);
  }

  lemma AppendApart(spec: Spec, text: nat)
    requires OverlayOk(spec) && RemoveOk(spec) && text < |spec.append|
    ensures var p := Stripped(spec.append[text].name, false);
            && p !in FileMap(spec.files, |spec.files|) && p !in DirMap(spec.dirs, |spec.dirs|) && p !in Removed(spec)
            && Distinct(PathsOf(spec.append))
  {
    hide FileMap, DirMap, Removed, Stripped, PlainPath;
    FileMapKeys(spec.files, |spec.files|);
    DirMapKeys(spec.dirs, |spec.dirs|);
    var a, b, c := PathsOf(spec.files), PathsOf(spec.dirs), PathsOf(spec.append);
    assert a[..|a|] == a && b[..|b|] == b;
    ThirdPart(a, b, c, text);
    assert c[text] in ElementsOf(OverlayPaths(spec));
  }

  lemma ThirdPart(a: seq<string>, b: seq<string>, c: seq<string>, k: nat)
    requires Distinct(a + b + c) && k < |c|
    ensures c[k] !in a && c[k] !in b && c[k] in a + b + c && Distinct(c)
  {
    var all, n := a + b + c, |a| + |b|;
    assert all[n + k] == c[k];
    assert forall i :: 0 <= i < |a| ==> all[i] == a[i];
    assert forall i :: 0 <= i < |b| ==> all[|a| + i] == b[i];
    DistinctPart(all, n, |all|);
    assert all[n..|all|] == c;
  }

  lemma {:induction false} AppendMapHas(items: seq<Item>, n: nat, k: nat)
    requires k < n <= |items| && Distinct(PathsOf(items))
    ensures var p := Stripped(items[k].name, false); p in AppendMap(items, n) && AppendMap(items, n)[p] == items[k].data
  {
    hide Stripped;
    if k < n - 1 {
      AppendMapHas(items, n - 1, k);
      assert PathsOf(items)[k] != PathsOf(items)[n - 1];
    }
  }

  lemma {:induction false} BaseMapHas(base: seq<Member>, append: map<string, Bytes>, n: nat, k: nat)
    requires k < n <= |base| && BaseOk(base) && !IsRoot(base[k])
    ensures var p := Stripped(base[k].name, true);
            p in BaseMap(base, append, n) && BaseMap(base, append, n)[p] == BaseEntry(base[k], append)
  {
    hide Stripped, PlainPath, BaseEntry;
    BaseEntryPath(base[k], append);
    BaseEntryPath(base[n - 1], append);
    if k < n - 1 {
      BaseMapHas(base, append, n - 1, k);
    }
  }

  /** A base member that nothing removes or overrides is in the layer, and nothing else is at its path. */
  lemma BaseKept(spec: Spec, base: seq<Member>, k: nat)
    requires BaseOk(base) && k < |base| && !IsRoot(base[k])
    requires Stripped(base[k].name, true) !in Skipped(spec) + PackagesMap(spec.packages, |spec.packages|).Keys
    ensures var p := Stripped(base[k].name, true);
            p in Composed(spec, base) && Composed(spec, base)[p] == BaseEntry(base[k], Appends(spec))
  {
    hide PackagesMap, Removed, Stripped, FileMap, DirMap, BaseMap, BaseEntry, Appends;
    BaseMapHas(base, Appends(spec), |base|, k);
  }

  // A package that carries the path of an append

  function Motd(data: Bytes): Member {
    Member("motd", Regular, Header(420, 0, 0, 0), data, "")
  }

  function AppendToMotd(): Spec {
    Spec([], [], [Item("motd", Header(420, 0, 0, 0), [1])], [], [[Motd([2])]])
  }

  function BaseWithMotd(): seq<Member> {
    [Motd([3])]
  }

  lemma MotdIsPlain()
    ensures Stripped("motd", false) == "motd" && Stripped("motd", true) == "motd" && PlainPath("motd")
    ensures !StartsWith("motd", ".")
  {
    SplitComponent("motd");
  }

  lemma OneVisible(m: Member)
    requires !StartsWith(m.name, ".")
    ensures Visible([m]) == [m]
  {
    hide StartsWith;
    assert [m][..0] == [];
  }

  lemma OnePackage(m: Member)
    requires Visible([m]) == [m]
    ensures PackagesMap([[m]], 1) == map[PackageEntry(m).path := PackageEntry(m)]
  {
    hide PackageEntry, Visible;
    assert PackageMap([m], 1) == map[PackageEntry(m).path := PackageEntry(m)];
  }

  lemma MotdPackage()
    ensures Visible(AppendToMotd().packages[0]) == [Motd([2])]
    ensures PackagesMap(AppendToMotd().packages, 1) == map["motd" := PackageEntry(Motd([2]))]
  {
    MotdIsPlain();
    hide Stripped, PlainPath, StartsWith, Visible, PackagesMap;
    OneVisible(Motd([2]));
    OnePackage(Motd([2]));
  }

  lemma MotdBase()
    ensures Appends(AppendToMotd()) == map["motd" := [1]]
    ensures BaseMap(BaseWithMotd(), map["motd" := [1]], 1) == map["motd" := BaseEntry(Motd([3]), map["motd" := [1]])]
    ensures BaseOk(BaseWithMotd())
  {
    MotdIsPlain();
    hide Stripped, PlainPath;
  }

  lemma MotdOverlay()
    ensures OverlayPaths(AppendToMotd()) == ["motd"] && OverlayOk(AppendToMotd()) && RemoveOk(AppendToMotd())
    ensures PackagesOk(AppendToMotd().packages)
  {
    MotdIsPlain();
    MotdPackage();
    hide Stripped, PlainPath, StartsWith, PackagesMap, Visible;
    assert PackageOk(AppendToMotd().packages[0]);
  }

  lemma MotdBuilds()
    ensures BuildOk(AppendToMotd(), BaseWithMotd())
  {
    MotdBase();
    MotdOverlay();
    MotdPackage();
    hide Stripped, PackagesMap, BaseMap, Appends, Visible, Composed, FileMap, DirMap,
         OverlayOk, RemoveOk, BaseOk, PackagesOk, OverlayPaths;
    assert forall a :: !Ancestor(a, "motd");
  }

  /** The layer can be built, and the text to append is not in it: the package's file is. */
  lemma AppendIsDropped()
    ensures BuildOk(AppendToMotd(), BaseWithMotd())
    ensures var layer := Composed(AppendToMotd(), BaseWithMotd());
            "motd" in layer && layer["motd"].data == [2] && layer["motd"].data != Appended([3], [1])
  {
    MotdBuilds();
    MotdPackage();
    MotdBase();
    hide BuildOk, PackagesMap, BaseMap, Appends, Stripped;
  }
}
