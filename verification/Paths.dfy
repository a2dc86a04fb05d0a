/** Slash-separated paths: splitting, joining and the lexical cleaning of Go's `path.Clean`. */
module Paths {
  import opened Common

  // Components

  function Split(s: string): (cs: seq<string>)
    ensures cs != []
    ensures forall i :: 0 <= i < |cs| ==> '/' !in cs[i]
  {
    if s == "" then [""]
    else
      var rest := Split(s[1..]);
      if s[0] == '/' then [""] + rest else [[s[0]] + rest[0]] + rest[1..]
  }

  function Join(cs: seq<string>): string {
    if cs == [] then "" else if |cs| == 1 then cs[0] else cs[0] + "/" + Join(cs[1..])
  }

  lemma {:induction false} JoinSplit(s: string)
    ensures Join(Split(s)) == s
  {
    if s != "" {
      JoinSplit(s[1..]);
      var rest := Split(s[1..]);
      if s[0] == '/' {
        assert ([""] + rest)[1..] == rest;
      } else {
        var cs := [[s[0]] + rest[0]] + rest[1..];
        assert cs[1..] == rest[1..];
      }
    }
  }

  lemma {:induction false} SplitComponent(c: string)
    requires '/' !in c
    ensures Split(c) == [c]
  {
    if c != "" {
      SplitComponent(c[1..]);
      assert [c[0]] + c[1..] == c;
      assert c[0] in c;
    }
  }

  lemma {:induction false} SplitFirst(c: string, s: string)
    requires '/' !in c
    ensures Split(c + "/" + s) == [c] + Split(s)
  {
    if c == "" {
      assert (c + "/" + s)[1..] == s;
    } else {
      SplitFirst(c[1..], s);
      assert (c + "/" + s)[1..] == c[1..] + "/" + s;
      assert [c[0]] + c[1..] == c;
      assert c[0] in c;
      assert ([c[1..]] + Split(s))[1..] == Split(s);
    }
  }

  lemma {:induction false} SplitJoin(cs: seq<string>)
    requires cs != [] && forall i :: 0 <= i < |cs| ==> '/' !in cs[i]
    ensures Split(Join(cs)) == cs
  {
    if |cs| == 1 {
      SplitComponent(cs[0]);
    } else {
      SplitJoin(cs[1..]);
      SplitFirst(cs[0], Join(cs[1..]));
    }
  }

  lemma SplitStep(s: string)
    requires s != ""
    ensures var rest := Split(s[1..]);
            Split(s) == if s[0] == '/' then [""] + rest else [[s[0]] + rest[0]] + rest[1..]
  {
  }

  /** Splitting at a slash splits the components there. */
  lemma {:induction false} SplitConcat(s: string, t: string)
    ensures Split(s + "/" + t) == Split(s) + Split(t)
  {
    hide Split;
    if s == "" {
      SplitFirst("", t);
      SplitComponent("");
    } else {
      SplitConcat(s[1..], t);
      var whole, rest := s + "/" + t, Split(s[1..]);
      assert whole[1..] == s[1..] + "/" + t;
      SplitStep(s);
      SplitStep(whole);
      assert (rest + Split(t))[1..] == rest[1..] + Split(t);
      assert Split(whole[1..]) == rest + Split(t);
    }
  }

  // Cleaning a path that does not start with a slash

  /** The components left after the first `n`: empty ones and dots go, `..` takes back the one before it. */
  function Normal(cs: seq<string>, n: nat): (r: seq<string>)
    requires n <= |cs| && forall i :: 0 <= i < |cs| ==> '/' !in cs[i]
    ensures forall i :: 0 <= i < |r| ==> '/' !in r[i]
  {
    if n == 0 then []
    else
      var before := Normal(cs, n - 1);
      var c := cs[n - 1];
      if c == "" || c == "." then before
      else if c == ".." && before != [] && before[|before| - 1] != ".." then before[..|before| - 1]
      else before + [c]
  }

  function CleanRelative(s: string): string {
    var cs := Split(s);
    var kept := Normal(cs, |cs|);
    if kept == [] then "." else Join(kept)
  }

  predicate Plain(c: string) {
    c != "" && c != "." && c != ".."
  }

  ghost predicate AllPlain(cs: seq<string>) {
    forall i :: 0 <= i < |cs| ==> Plain(cs[i])
  }

  lemma {:induction false} NormalOfPlain(cs: seq<string>, n: nat)
    requires n <= |cs| && (forall i :: 0 <= i < |cs| ==> '/' !in cs[i]) && AllPlain(cs)
    ensures Normal(cs, n) == cs[..n]
  {
    if n > 0 {
      NormalOfPlain(cs, n - 1);
      assert Plain(cs[n - 1]);
    }
  }

  /** What is left is some `..` followed by plain components. */
  ghost predicate Shaped(r: seq<string>) {
    && (forall i :: 0 <= i < |r| ==> Plain(r[i]) || r[i] == "..")
    && (forall i, j :: 0 <= i < j < |r| && r[j] == ".." ==> r[i] == "..")
  }

  lemma {:induction false} NormalShape(cs: seq<string>, n: nat)
    requires n <= |cs| && forall i :: 0 <= i < |cs| ==> '/' !in cs[i]
    ensures Shaped(Normal(cs, n))
  {
    if n > 0 {
      NormalShape(cs, n - 1);
    }
  }

  /** A path that does not climb is its own clean form exactly when all its components are plain. */
  lemma CleanFixed(s: string)
    ensures CleanRelative(s) == s && s != "." && Split(s)[0] != ".." <==> AllPlain(Split(s))
  {
    hide Normal, Split;
    var cs := Split(s);
    var kept := Normal(cs, |cs|);
    JoinSplit(s);
    if CleanRelative(s) == s && s != "." && cs[0] != ".." {
      SplitJoin(kept);
      NormalShape(cs, |cs|);
      forall i | 0 <= i < |cs| ensures Plain(cs[i]) {
        assert kept[i] != "..";
      }
    }
    if AllPlain(cs) {
      NormalOfPlain(cs, |cs|);
      assert cs[..|cs|] == cs;
      assert Plain(cs[0]);
      SplitComponent(".");
    }
  }

  lemma {:induction false} NormalPrefix(cs: seq<string>, ds: seq<string>, n: nat)
    requires forall i :: 0 <= i < |cs| ==> '/' !in cs[i]
    requires forall i :: 0 <= i < |ds| ==> '/' !in ds[i]
    requires n <= |cs| && n <= |ds| && cs[..n] == ds[..n]
    ensures Normal(cs, n) == Normal(ds, n)
  {
    if n > 0 {
      assert cs[..n - 1] == cs[..n][..n - 1] && ds[..n - 1] == ds[..n][..n - 1];
      assert cs[n - 1] == cs[..n][n - 1] == ds[..n][n - 1] == ds[n - 1];
      NormalPrefix(cs, ds, n - 1);
    }
  }

  /** A trailing slash does not change the clean form. */
  lemma CleanSlash(s: string)
    ensures CleanRelative(s + "/") == CleanRelative(s)
  {
    assert s + "/" == s + "/" + "";
    SplitConcat(s, "");
    var cs, ds := Split(s), Split(s + "/");
    assert ds == cs + [""];
    NormalPrefix(cs, ds, |cs|);
  }

  lemma PlainIsClean(path: string)
    requires AllPlain(Split(path))
    ensures CleanRelative(path) == path && CleanRelative(path + "/") == path && path != "" && path[0] != '/'
  {
    CleanFixed(path);
    CleanSlash(path);
    assert Plain(Split(path)[0]);
  }

  predicate Unsafe(c: char) {
    c == '\0' || c == '\\'
  }

  /** A path of plain components, without characters that mean something elsewhere. */
  ghost predicate PlainPath(path: string) {
    AllPlain(Split(path)) && forall i :: 0 <= i < |path| ==> !Unsafe(path[i])
  }
}
