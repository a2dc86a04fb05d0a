/**
 * Composing a guest image layer from a base archive, package payloads and overlays.
 * A layer is a list of entries; what it should hold is a map from path to entry.
 */
module Images {
  import opened Common
  import opened Text
  import opened Paths

  datatype Kind = Regular | Directory | Symlink | Hardlink | Other

  datatype Header = Header(mode: int, uid: int, gid: int, mtime: int)

  /** A member of the base archive or of a package, with its link target if it is a link. */
  datatype Member = Member(name: string, kind: Kind, header: Header, data: Bytes, link: string)

  /** An overlaid file or directory, or text to append. */
  datatype Item = Item(name: string, header: Header, data: Bytes)

  datatype Spec = Spec(files: seq<Item>, dirs: seq<Item>, append: seq<Item>, remove: seq<string>, packages: seq<seq<Member>>)

  /** What is written to the layer: the name in the archive, and the guest path it stands for. */
  datatype Entry = Entry(path: string, name: string, kind: Kind, header: Header, data: Bytes, link: string)

  function DataOf(m: Member): Bytes {
    if m.kind == Regular then m.data else []
  }

  datatype BuildError = Rejected

  // Guest paths

  function StripSlashes(s: string): string {
    if s != "" && s[|s| - 1] == '/' then StripSlashes(s[..|s| - 1]) else s
  }

  /** The name without a leading `./` (in the base archive only) and without slashes at the end. */
  function Stripped(name: string, base: bool): string {
    StripSlashes(if base && StartsWith(name, "./") then name[2..] else name)
  }

  function GuestPath(name: string, base: bool): Option<string> {
    var path := Stripped(name, base);
    if || path == "" || path == "." || path[0] == '/'
       || (exists i :: 0 <= i < |path| && Unsafe(path[i]))
       || ".." in Split(path) || CleanRelative(path) != path
    then None
    else Some(path)
  }

  /** Accepted names are those that strip to a plain path, and that path is the result. */
  lemma GuestPathIff(name: string, base: bool)
    ensures GuestPath(name, base) == if PlainPath(Stripped(name, base)) then Some(Stripped(name, base)) else None
  {
    hide Split, CleanRelative, Stripped;
    var path := Stripped(name, base);
    CleanFixed(path);
    if AllPlain(Split(path)) {
      PlainIsClean(path);
      forall c | c in Split(path) ensures c != ".." {
        var i :| 0 <= i < |Split(path)| && Split(path)[i] == c;
        assert Plain(Split(path)[i]);
      }
    }
  }

  // What the layer should hold

  function PathsOf(items: seq<Item>): (r: seq<string>)
    ensures |r| == |items|
  {
    seq(|items|, i requires 0 <= i < |items| => Stripped(items[i].name, false))
  }

  function OverlayPaths(spec: Spec): seq<string> {
    PathsOf(spec.files) + PathsOf(spec.dirs) + PathsOf(spec.append)
  }

  function Removed(spec: Spec): set<string> {
    set i | 0 <= i < |spec.remove| :: Stripped(spec.remove[i], false)
  }

  function FileEntry(item: Item): Entry {
    var path := Stripped(item.name, false);
    Entry(path, path, Regular, item.header.(mtime := 0), item.data, "")
  }

  function DirEntry(item: Item): Entry {
    var path := Stripped(item.name, false);
    Entry(path, path + "/", Directory, item.header.(mtime := 0), [], "")
  }

  function PackageEntry(m: Member): Entry {
    var path := Stripped(m.name, false);
    Entry(path, path, m.kind, m.header, DataOf(m), m.link)
  }

  /** Appended text starts on a line of its own. */
  function Appended(data: Bytes, text: Bytes): Bytes {
    (if data != [] && data[|data| - 1] != 10 then data + [10] else data) + text
  }

  function BaseEntry(m: Member, append: map<string, Bytes>): Entry {
    var path := Stripped(m.name, true);
    var name := if m.kind == Directory then path + "/" else path;
    if path in append then Entry(path, name, m.kind, m.header.(mtime := 0), Appended(DataOf(m), append[path]), m.link)
    else Entry(path, name, m.kind, m.header, DataOf(m), m.link)
  }

  predicate IsRoot(m: Member) {
    (m.name == "." || m.name == "./") && m.kind == Directory
  }

  function FileMap(items: seq<Item>, n: nat): (r: map<string, Entry>)
    requires n <= |items|
    ensures forall p :: p in r ==> r[p].path == p && r[p].kind == Regular
  {
    if n == 0 then map[] else FileMap(items, n - 1)[FileEntry(items[n - 1]).path := FileEntry(items[n - 1])]
  }

  function DirMap(items: seq<Item>, n: nat): (r: map<string, Entry>)
    requires n <= |items|
    ensures forall p :: p in r ==> r[p].path == p && r[p].kind == Directory
  {
    if n == 0 then map[] else DirMap(items, n - 1)[DirEntry(items[n - 1]).path := DirEntry(items[n - 1])]
  }

  function AppendMap(items: seq<Item>, n: nat): map<string, Bytes>
    requires n <= |items|
  {
    if n == 0 then map[] else AppendMap(items, n - 1)[Stripped(items[n - 1].name, false) := items[n - 1].data]
  }

  /** The package's own records, whose names start with a dot, are not part of its payload. */
  function Visible(ms: seq<Member>): (r: seq<Member>)
    ensures forall m :: m in r <==> m in ms && !StartsWith(m.name, ".")
  {
    if ms == [] then []
    else
      var n := |ms| - 1;
      assert ms == ms[..n] + [ms[n]];
      Visible(ms[..n]) + if StartsWith(ms[n].name, ".") then [] else [ms[n]]
  }

  /** The members of one package by path. */
  function PackageMap(ms: seq<Member>, n: nat): (r: map<string, Entry>)
    requires n <= |ms|
    ensures forall p :: p in r ==> r[p].path == p
  {
    if n == 0 then map[] else PackageMap(ms, n - 1)[PackageEntry(ms[n - 1]).path := PackageEntry(ms[n - 1])]
  }

  /** The members of the first `n` packages; a later package wins. */
  function PackagesMap(packages: seq<seq<Member>>, n: nat): (r: map<string, Entry>)
    requires n <= |packages|
    ensures forall p :: p in r ==> r[p].path == p
  {
    if n == 0 then map[]
    else PackagesMap(packages, n - 1) + PackageMap(Visible(packages[n - 1]), |Visible(packages[n - 1])|)
  }

  function BaseMap(base: seq<Member>, append: map<string, Bytes>, n: nat): (r: map<string, Entry>)
    requires n <= |base|
    ensures forall p :: p in r ==> r[p].path == p
  {
    if n == 0 then map[]
    else
      var before := BaseMap(base, append, n - 1);
      if IsRoot(base[n - 1]) then before
      else before[BaseEntry(base[n - 1], append).path := BaseEntry(base[n - 1], append)]
  }

  function Appends(spec: Spec): map<string, Bytes> {
    AppendMap(spec.append, |spec.append|)
  }

  /** Base members, overridden by packages, overridden by overlays, without what is removed. */
  function Composed(spec: Spec, base: seq<Member>): map<string, Entry> {
    BaseMap(base, Appends(spec), |base|)
    + PackagesMap(spec.packages, |spec.packages|)
    + DirMap(spec.dirs, |spec.dirs|)
    + FileMap(spec.files, |spec.files|)
    - Removed(spec)
  }

  /** The entries are the map's, each once. */
  ghost predicate Enumerates(out: seq<Entry>, m: map<string, Entry>) {
    && (forall i :: 0 <= i < |out| ==> out[i].path in m && m[out[i].path] == out[i])
    && (forall i, j :: 0 <= i < j < |out| ==> out[i].path != out[j].path)
    && (forall p :: p in m ==> Occurs(out, p))
  }

  ghost predicate Occurs(out: seq<Entry>, path: string) {
    exists i :: 0 <= i < |out| && out[i].path == path
  }

  lemma EnumeratesConcat(a: seq<Entry>, m: map<string, Entry>, b: seq<Entry>, n: map<string, Entry>)
    requires Enumerates(a, m) && Enumerates(b, n) && m.Keys !! n.Keys
    ensures Enumerates(a + b, m + n)
  {
    var out := a + b;
    forall p | p in m + n ensures Occurs(out, p) {
      if p in n {
        assert Occurs(b, p);
        var i :| 0 <= i < |b| && b[i].path == p;
        assert out[|a| + i].path == p;
      } else {
        assert Occurs(a, p);
        var i :| 0 <= i < |a| && a[i].path == p;
        assert out[i].path == p;
      }
    }
    forall i, j | 0 <= i < j < |out| ensures out[i].path != out[j].path {
      if i < |a| && j >= |a| {
        assert a[i].path in m && b[j - |a|].path in n;
      }
    }
  }

  // Sorting by name

  predicate Before(a: string, b: string) {
    if a == "" then true else if b == "" then false else a[0] < b[0] || (a[0] == b[0] && Before(a[1..], b[1..]))
  }

  function Insert(x: string, s: seq<string>): seq<string> {
    if s == [] || Before(x, s[0]) then [x] + s else [s[0]] + Insert(x, s[1..])
  }

  function Sort(s: seq<string>): seq<string> {
    if s == [] then [] else Insert(s[|s| - 1], Sort(s[..|s| - 1]))
  }

  lemma {:induction false} InsertKeeps(x: string, s: seq<string>)
    requires Distinct(s) && x !in s
    ensures Distinct(Insert(x, s)) && ElementsOf(Insert(x, s)) == ElementsOf(s) + {x}
  {
    hide Before;
    if s == [] || Before(x, s[0]) {
    } else {
      InsertKeeps(x, s[1..]);
      var rest := Insert(x, s[1..]);
      assert s == [s[0]] + s[1..];
      assert s[0] !in ElementsOf(rest);
    }
  }

  lemma {:induction false} SortKeeps(s: seq<string>)
    requires Distinct(s)
    ensures Distinct(Sort(s)) && ElementsOf(Sort(s)) == ElementsOf(s)
  {
    if s != [] {
      var front, last := s[..|s| - 1], s[|s| - 1];
      SortKeeps(front);
      assert s == front + [last];
      assert last !in ElementsOf(front);
      InsertKeeps(last, Sort(front));
    }
  }

  ghost predicate Ascending(s: seq<string>) {
    forall i, j :: 0 <= i < j < |s| ==> Before(s[i], s[j])
  }

  lemma {:induction false} BeforeTotal(a: string, b: string)
    ensures Before(a, b) || Before(b, a)
  {
    if a != "" && b != "" {
      BeforeTotal(a[1..], b[1..]);
    }
  }

  lemma {:induction false} BeforeTransitive(a: string, b: string, c: string)
    requires Before(a, b) && Before(b, c)
    ensures Before(a, c)
  {
    if a != "" && b != "" && c != "" && a[0] == b[0] == c[0] {
      BeforeTransitive(a[1..], b[1..], c[1..]);
    }
  }

  lemma {:induction false} InsertMembers(x: string, s: seq<string>, y: string)
    ensures y in Insert(x, s) <==> y == x || y in s
  {
    if s != [] && !Before(x, s[0]) {
      hide Before;
      InsertMembers(x, s[1..], y);
      assert s == [s[0]] + s[1..];
    }
  }

  lemma {:induction false} InsertAscends(x: string, s: seq<string>)
    requires Ascending(s)
    ensures Ascending(Insert(x, s))
  {
    hide Before;
    if s == [] {
    } else if Before(x, s[0]) {
      forall j | 0 <= j < |s| ensures Before(x, s[j]) {
        if j > 0 {
          BeforeTransitive(x, s[0], s[j]);
        }
      }
    } else {
      InsertAscends(x, s[1..]);
      BeforeTotal(x, s[0]);
      var rest := Insert(x, s[1..]);
      forall j | 0 <= j < |rest| ensures Before(s[0], rest[j]) {
        InsertMembers(x, s[1..], rest[j]);
        if rest[j] != x {
          var k :| 0 <= k < |s[1..]| && s[1..][k] == rest[j];
          assert s[k + 1] == rest[j];
        }
      }
    }
  }

  lemma {:induction false} SortAscends(s: seq<string>)
    ensures Ascending(Sort(s))
  {
    if s != [] {
      SortAscends(s[..|s| - 1]);
      InsertAscends(s[|s| - 1], Sort(s[..|s| - 1]));
    }
  }
}
