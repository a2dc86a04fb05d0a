/** Unpacking a runtime archive into a staging directory, entry by entry and within bounds. */
module RuntimeArchive {
  import opened Common
  import opened Text
  import opened Paths
  import opened RuntimeTree

  const MAX_ARCHIVE := 0x2000_0000
  const MAX_EXTRACTED := 0x4000_0000

  datatype ArchiveError = Integrity | Installation

  // Entry names

  /** The path below the archive's top-level directory, empty for that directory itself. */
  function SafePath(name: string, top: string): Result<string, ArchiveError> {
    if name == "" || (exists i :: 0 <= i < |name| && Unsafe(name[i])) || name[0] == '/' then Err(Integrity)
    else
      var clean := CleanRelative(name);
      if clean == "." || clean == ".." || StartsWith(clean, "../") then Err(Integrity)
      else if clean != name && clean + "/" != name then Err(Integrity)
      else if clean == top then Ok("")
      else if !StartsWith(clean, top + "/") then Err(Integrity)
      else
        var relative := clean[|top| + 1..];
        if relative == "" || relative == "." || StartsWith(relative, "../") then Err(Integrity) else Ok(relative)
  }

  /** A plain path, written with or without a slash at the end. */
  ghost predicate Spells(name: string, path: string) {
    PlainPath(path) && (name == path || name == path + "/")
  }

  function Below(top: string, relative: string): string {
    if relative == "" then top else top + "/" + relative
  }

  lemma SplitHead(s: string, c: string)
    requires '/' !in c
    ensures Split(s)[0] == c <==> s == c || StartsWith(s, c + "/")
  {
    JoinSplit(s);
    if Split(s)[0] == c && |Split(s)| > 1 {
      assert s == c + "/" + Join(Split(s)[1..]);
    }
    if s == c {
      SplitComponent(c);
    } else if StartsWith(s, c + "/") {
      var rest := s[|c| + 1..];
      assert s == c + "/" + rest;
      SplitFirst(c, rest);
    }
  }

  /** The clean form of a name that passes the checks is the plain path it spells. */
  lemma CleanSpells(name: string)
    requires name != ""
    ensures var clean := CleanRelative(name);
            && (clean == name || clean + "/" == name)
            && clean != "." && clean != ".." && !StartsWith(clean, "../")
            <==> AllPlain(Split(clean)) && (name == clean || name == clean + "/")
  {
    hide CleanRelative, Split;
    var clean := CleanRelative(name);
    if name == clean || name == clean + "/" {
      CleanSlash(clean);
      CleanFixed(clean);
      SplitHead(clean, "..");
    }
  }

  /** What lies below a plain path is a plain path. */
  lemma RelativeIsPlain(top: string, relative: string)
    requires AllPlain(Split(top + "/" + relative))
    ensures AllPlain(Split(relative))
    ensures relative != "" && relative != "." && !StartsWith(relative, "../")
  {
    hide Split;
    var whole := Split(top + "/" + relative);
    SplitConcat(top, relative);
    var n := |Split(top)|;
    forall i | 0 <= i < |Split(relative)| ensures Plain(Split(relative)[i]) {
      assert Split(relative)[i] == whole[n + i];
    }
    assert Plain(Split(relative)[0]);
    SplitComponent("");
    SplitComponent(".");
    SplitHead(relative, "..");
  }

  /** Names are accepted exactly when they spell a plain path that is the top-level directory or lies below it. */
  lemma SafePathIff(name: string, top: string, relative: string)
    ensures SafePath(name, top) == Ok(relative) <==> Spells(name, Below(top, relative))
  {
    hide CleanRelative, Split;
    if SafePath(name, top) == Ok(relative) {
      var clean := CleanRelative(name);
      CleanSpells(name);
      if relative != "" {
        assert clean == top + "/" + relative;
      }
      assert forall i :: 0 <= i < |clean| ==> clean[i] == name[i];
    }
    var path := Below(top, relative);
    if Spells(name, path) {
      PlainIsClean(path);
      CleanSpells(name);
      assert CleanRelative(name) == path;
      NoUnsafe(name, path);
      if relative != "" {
        RelativeIsPlain(top, relative);
        assert path[|top| + 1..] == relative;
      }
    }
  }

  lemma NoUnsafe(name: string, path: string)
    requires Spells(name, path)
    ensures forall i :: 0 <= i < |name| ==> !Unsafe(name[i])
  {
    forall i | 0 <= i < |name| ensures !Unsafe(name[i]) {
      if i < |path| {
        assert name[i] == path[i];
      } else {
        assert name[i] == '/';
      }
    }
  }

  // Entries

  datatype Kind = DirectoryEntry | FileEntry | OtherEntry

  /** An entry's header, and the bytes that follow it. */
  datatype TarEntry = TarEntry(name: string, kind: Kind, size: int, mode: nat, available: Bytes)

  predicate EntryOk(e: TarEntry, top: string, target: Target) {
    var path := SafePath(e.name, top);
    && path.Ok?
    && if path.value == "" then e.kind == DirectoryEntry
       else match e.kind
            case DirectoryEntry => path.value in DIRECTORIES
            case FileEntry =>
              && FileMode(path.value, target) == Some(e.mode)
              && 0 <= e.size <= MAX_ARCHIVE && e.size <= |e.available|
            case OtherEntry => false
  }

  function SizeOf(e: TarEntry): (n: int) {
    if e.kind == FileEntry then e.size else 0
  }

  /** The bytes unpacked by the first `n` entries. */
  function Extracted(entries: seq<TarEntry>, n: nat): int
    requires n <= |entries|
  {
    if n == 0 then 0 else Extracted(entries, n - 1) + SizeOf(entries[n - 1])
  }

  predicate SameEntry(a: TarEntry, b: TarEntry, top: string) {
    SafePath(a.name, top) == SafePath(b.name, top)
  }

  predicate Has(entries: seq<TarEntry>, top: string, path: string) {
    exists i :: 0 <= i < |entries| && SafePath(entries[i].name, top) == Ok(path)
  }

  ghost predicate ArchiveOk(entries: seq<TarEntry>, top: string, target: Target) {
    && (forall i :: 0 <= i < |entries| ==> EntryOk(entries[i], top, target))
    && (forall i, j :: 0 <= i < j < |entries| ==> !SameEntry(entries[i], entries[j], top))
    && Extracted(entries, |entries|) <= MAX_EXTRACTED
    && Has(entries, top, "")
    && forall path :: path in FILES ==> Has(entries, top, path)
  }

  /** The files unpacked by the first `n` entries. */
  function FilesOf(entries: seq<TarEntry>, top: string, n: nat): map<string, Node>
    requires n <= |entries|
  {
    if n == 0 then map[]
    else
      var before := FilesOf(entries, top, n - 1);
      var e := entries[n - 1];
      var path := SafePath(e.name, top);
      if path.Ok? && path.value != "" && e.kind == FileEntry && 0 <= e.size <= |e.available|
      then before[path.value := File(e.mode, e.available[..e.size])]
      else before
  }

  /** Files, and the runtime's directories with their final mode. */
  function TreeOf(entries: seq<TarEntry>, top: string): Root {
    Tree(MODE_755, FilesOf(entries, top, |entries|) + map path | path in DIRECTORIES :: Directory(MODE_755))
  }

  lemma {:induction false} ExtractedGrows(entries: seq<TarEntry>, n: nat)
    requires n <= |entries| && forall i :: 0 <= i < |entries| ==> SizeOf(entries[i]) >= 0
    ensures 0 <= Extracted(entries, n) <= Extracted(entries, |entries|)
    decreases |entries| - n
  {
    if n < |entries| {
      ExtractedGrows(entries, n + 1);
    }
    ExtractedPositive(entries, n);
  }

  lemma {:induction false} ExtractedPositive(entries: seq<TarEntry>, n: nat)
    requires n <= |entries| && forall i :: 0 <= i < n ==> SizeOf(entries[i]) >= 0
    ensures 0 <= Extracted(entries, n)
  {
    if n > 0 {
      ExtractedPositive(entries, n - 1);
    }
  }

  /** Whether one more entry is fine after those already seen; a file must also fit what is left of the bound. */
  method CheckEntry(e: TarEntry, top: string, target: Target, seen: set<string>, rootSeen: bool, extracted: int)
    returns (r: Result<string, ArchiveError>)
    requires 0 <= extracted <= MAX_EXTRACTED
    ensures r.Ok? <==>
            && EntryOk(e, top, target)
            && (if SafePath(e.name, top).value == "" then !rootSeen else SafePath(e.name, top).value !in seen)
            && extracted + SizeOf(e) <= MAX_EXTRACTED
    ensures r.Ok? ==> r == SafePath(e.name, top)
  {
    hide SafePath, FileMode;
    var path := SafePath(e.name, top);
    if path.Err? {
      return Err(path.error);
    }
    if path.value == "" {
      if e.kind != DirectoryEntry || rootSeen {
        return Err(Integrity);
      }
      return path;
    }
    if path.value in seen {
      return Err(Integrity);
    }
    match e.kind {
      case DirectoryEntry =>
        if path.value !in DIRECTORIES {
          return Err(Integrity);
        }
      case FileEntry =>
        var mode := FileMode(path.value, target);
        if mode.None? {
          return Err(Integrity);
        }
        if e.size < 0 || e.size > MAX_ARCHIVE || extracted > MAX_EXTRACTED - e.size {
          return Err(Integrity);
        }
        if e.mode != mode.value {
          return Err(Integrity);
        }
        if |e.available| < e.size {
          return Err(Installation);
        }
      case OtherEntry => return Err(Integrity);
    }
    return path;
  }

  /** The paths of the first `n` entries. */
  function PathsBefore(entries: seq<TarEntry>, top: string, n: nat): set<string>
    requires n <= |entries|
  {
    if n == 0 then {}
    else
      var path := SafePath(entries[n - 1].name, top);
      PathsBefore(entries, top, n - 1) + if path.Ok? then {path.value} else {}
  }

  lemma {:induction false} PathsBeforeMembers(entries: seq<TarEntry>, top: string, n: nat, path: string)
    requires n <= |entries|
    ensures path in PathsBefore(entries, top, n) <==> exists i :: 0 <= i < n && SafePath(entries[i].name, top) == Ok(path)
  {
    hide SafePath;
    if n > 0 {
      PathsBeforeMembers(entries, top, n - 1, path);
    }
  }

  /** A path already taken means two entries for it. */
  lemma TakenTwice(entries: seq<TarEntry>, top: string, n: nat)
    requires n < |entries| && SafePath(entries[n].name, top).Ok?
    ensures SafePath(entries[n].name, top).value in PathsBefore(entries, top, n) <==>
            exists i :: 0 <= i < n && SameEntry(entries[i], entries[n], top)
  {
    hide SafePath;
    PathsBeforeMembers(entries, top, n, SafePath(entries[n].name, top).value);
    if i :| 0 <= i < n && SafePath(entries[i].name, top) == SafePath(entries[n].name, top) {
      assert SameEntry(entries[i], entries[n], top);
    }
  }

  /** Once the bound is passed it stays passed. */
  lemma OverBound(entries: seq<TarEntry>, top: string, target: Target, n: nat)
    requires n <= |entries| && Extracted(entries, n) > MAX_EXTRACTED
    ensures !ArchiveOk(entries, top, target)
  {
    hide SafePath, Has;
    if forall i :: 0 <= i < |entries| ==> EntryOk(entries[i], top, target) {
      assert forall i :: 0 <= i < |entries| && EntryOk(entries[i], top, target) ==> SizeOf(entries[i]) >= 0;
      ExtractedGrows(entries, n);
    }
  }

  /** Unpacks the archive if it is acceptable, and then nothing but its whitelisted files. */
  method Extract(entries: seq<TarEntry>, top: string, target: Target) returns (r: Result<Root, ArchiveError>)
    ensures r.Ok? <==> ArchiveOk(entries, top, target)
    ensures r.Ok? ==> r.value == TreeOf(entries, top)
  {
    hide SafePath, EntryOk, Has, SizeOf, SameEntry;
    var seen: set<string>, rootSeen := {}, false;
    var extracted := 0;
    var files: map<string, Node> := map[];
    for i := 0 to |entries|
      invariant seen == PathsBefore(entries, top, i) - {""} && rootSeen == ("" in PathsBefore(entries, top, i))
      invariant forall k :: 0 <= k < i ==> EntryOk(entries[k], top, target)
      invariant forall k, l :: 0 <= k < l < i ==> !SameEntry(entries[k], entries[l], top)
      invariant 0 <= extracted == Extracted(entries, i) <= MAX_EXTRACTED
      invariant files == FilesOf(entries, top, i)
    {
      var e := entries[i];
      var path := CheckEntry(e, top, target, seen, rootSeen, extracted);
      EntryFacts(e, top, target);
      if EntryOk(e, top, target) {
        TakenTwice(entries, top, i);
      }
      if path.Err? {
        if Extracted(entries, i + 1) > MAX_EXTRACTED {
          OverBound(entries, top, target, i + 1);
        }
        return Err(path.error);
      }
      if path.value == "" {
        rootSeen := true;
        continue;
      }
      seen := seen + {path.value};
      if e.kind == FileEntry {
        extracted := extracted + e.size;
        files := files[path.value := File(e.mode, e.available[..e.size])];
      }
    }
    AllSeen(entries, top);
    if !rootSeen || exists path :: path in FILES && path !in seen {
      return Err(Integrity);
    }
    return Ok(Tree(MODE_755, files + map path | path in DIRECTORIES :: Directory(MODE_755)));
  }

  /** What an acceptable entry's kind says about its path and size. */
  lemma EntryFacts(e: TarEntry, top: string, target: Target)
    ensures EntryOk(e, top, target) ==>
            && SafePath(e.name, top).Ok?
            && (SafePath(e.name, top).value == "" ==> e.kind == DirectoryEntry)
            && (e.kind == FileEntry ==> 0 <= e.size <= |e.available|)
    ensures SizeOf(e) == if e.kind == FileEntry then e.size else 0
  {
    hide SafePath;
  }

  lemma AllSeen(entries: seq<TarEntry>, top: string)
    ensures var paths := PathsBefore(entries, top, |entries|);
            && ("" in paths <==> Has(entries, top, ""))
            && forall path :: path in FILES ==> path != "" && (path in paths <==> Has(entries, top, path))
  {
    hide SafePath, PathsBefore;
    PathsBeforeMembers(entries, top, |entries|, "");
    forall path | path in FILES ensures path != "" && (path in PathsBefore(entries, top, |entries|) <==> Has(entries, top, path)) {
      PathsBeforeMembers(entries, top, |entries|, path);
    }
  }

  /** An unpacked archive has the shape of a runtime; only its manifest is left to check. */
  lemma ExtractedIsWellShaped(entries: seq<TarEntry>, top: string, target: Target)
    requires ArchiveOk(entries, top, target)
    ensures WellShaped(TreeOf(entries, top), target)
  {
    hide SafePath, FilesOf, Extracted, EntryOk;
    var files, nodes := FilesOf(entries, top, |entries|), TreeOf(entries, top).nodes;
    forall path | path in files ensures files[path].File? && FileMode(path, target) == Some(files[path].mode) {
      FilesOfOk(entries, top, target, |entries|, path);
    }
    forall path | path in FILES ensures path in nodes && nodes[path].File? && nodes[path].mode == FILES[path] {
      assert Has(entries, top, path);
      var i :| 0 <= i < |entries| && SafePath(entries[i].name, top) == Ok(path);
      RequiredIsFile(entries[i], top, target, path);
      FilesOfHas(entries, top, target, |entries|, i);
    }
    DirectoriesAreNotFiles(target);
  }

  lemma DirectoriesAreNotFiles(target: Target)
    ensures forall path :: path in DIRECTORIES ==> path !in FILES && FileMode(path, target).None?
  {
  }

  lemma RequiredIsFile(e: TarEntry, top: string, target: Target, path: string)
    requires EntryOk(e, top, target) && SafePath(e.name, top) == Ok(path) && path in FILES
    ensures e.kind == FileEntry
  {
    hide SafePath;
    DirectoriesAreNotFiles(target);
  }

  lemma {:induction false} FilesOfOk(entries: seq<TarEntry>, top: string, target: Target, n: nat, path: string)
    requires n <= |entries| && forall i :: 0 <= i < |entries| ==> EntryOk(entries[i], top, target)
    requires path in FilesOf(entries, top, n)
    ensures FilesOf(entries, top, n)[path].File? && FileMode(path, target) == Some(FilesOf(entries, top, n)[path].mode)
  {
    hide SafePath, FileMode;
    assert EntryOk(entries[n - 1], top, target);
    if SafePath(entries[n - 1].name, top) != Ok(path) || entries[n - 1].kind != FileEntry {
      FilesOfOk(entries, top, target, n - 1, path);
    }
  }

  /** Every file entry's bytes are what is found at its path. */
  lemma {:induction false} FilesOfHas(entries: seq<TarEntry>, top: string, target: Target, n: nat, i: nat)
    requires i < n <= |entries| && forall i :: 0 <= i < |entries| ==> EntryOk(entries[i], top, target)
    requires forall i, j :: 0 <= i < j < |entries| ==> !SameEntry(entries[i], entries[j], top)
    requires entries[i].kind == FileEntry
    ensures SafePath(entries[i].name, top).Ok? && 0 <= entries[i].size <= |entries[i].available|
    ensures var path, files := SafePath(entries[i].name, top).value, FilesOf(entries, top, n);
            path in files && files[path] == File(entries[i].mode, entries[i].available[..entries[i].size])
  {
    hide SafePath, FileMode;
    assert EntryOk(entries[i], top, target);
    if i < n - 1 {
      FilesOfHas(entries, top, target, n - 1, i);
      assert !SameEntry(entries[i], entries[n - 1], top);
    }
  }
}
