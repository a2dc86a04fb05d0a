/** Host bindings: their normal form, and the registry hosts the validator compares them with. */
module PolicyHosts {
  import opened Common
  import opened Text
  import opened PolicyModel

  function DropDots(s: string): (r: string)
    ensures |r| <= |s| && r == s[..|r|]
    ensures r == [] || r[|r| - 1] != '.'
    ensures forall i :: |r| <= i < |s| ==> s[i] == '.'
  {
    if s != [] && s[|s| - 1] == '.' then DropDots(s[..|s| - 1]) else s
  }

  function LowerChar(c: char): (r: char)
    ensures IsWhitespace(r) <==> IsWhitespace(c)
    ensures r == '.' <==> c == '.'
    ensures !IsUpper(r) && (!IsUpper(c) ==> r == c)
  {
    if IsUpper(c) then (c as int + 32) as char else c
  }

  function Lower(s: string): (r: string)
    ensures |r| == |s| && forall i :: 0 <= i < |s| ==> r[i] == LowerChar(s[i])
  {
    seq(|s|, i requires 0 <= i < |s| => LowerChar(s[i]))
  }

  function NormalizeHost(host: string): string {
    Lower(DropDots(Trim(host)))
  }

  predicate OnlyDots(s: string, from: nat) {
    forall j :: from <= j < |s| ==> s[j] == '.'
  }

  /** In the trimmed host, whitespace stands directly before a run of trailing dots. */
  ghost predicate SpaceBeforeDots(host: string) {
    var t := Trim(host);
    exists k :: 0 <= k < |t| - 1 && IsWhitespace(t[k]) && OnlyDots(t, k + 1)
  }

  lemma TrimFixed(s: string)
    ensures s == [] || !IsWhitespace(s[0]) ==> TrimStart(s) == s
    ensures s == [] || !IsWhitespace(s[|s| - 1]) ==> TrimEnd(s) == s
    ensures s != [] && IsWhitespace(s[|s| - 1]) ==> |TrimEnd(s)| < |s|
  {
  }

  /** Such whitespace is what dropping the dots leaves at the end. */
  lemma SpaceIsLast(host: string)
    ensures var x := DropDots(Trim(host)); SpaceBeforeDots(host) <==> x != [] && IsWhitespace(x[|x| - 1])
  {
    hide IsWhitespace;
    var t := Trim(host);
    var x := DropDots(t);
    if x != [] && IsWhitespace(x[|x| - 1]) {
      assert t[|x| - 1] == x[|x| - 1] && OnlyDots(t, |x|);
    }
    if SpaceBeforeDots(host) {
      var k :| 0 <= k < |t| - 1 && IsWhitespace(t[k]) && OnlyDots(t, k + 1);
      DotIsNoSpace();
      assert k == |x| - 1;
    }
  }

  lemma DotIsNoSpace()
    ensures !IsWhitespace('.')
  {
  }

  /** A text with no whitespace at its ends, no final dot and no capitals is its own normal form. */
  lemma NormalStays(y: string)
    requires y != [] ==> !IsWhitespace(y[0]) && !IsWhitespace(y[|y| - 1]) && y[|y| - 1] != '.'
    requires forall i :: 0 <= i < |y| ==> !IsUpper(y[i])
    ensures NormalizeHost(y) == y
  {
    TrimFixed(y);
    hide IsWhitespace, IsUpper;
    assert DropDots(y) == y;
    assert Lower(y) == y;
  }

  /**
   * Normalising a host twice is the same as normalising it once, exactly unless the trimmed host
   * has whitespace directly before its trailing dots.
   */
  lemma HostIdempotentIff(host: string)
    ensures NormalizeHost(NormalizeHost(host)) == NormalizeHost(host) <==> !SpaceBeforeDots(host)
  {
    hide IsWhitespace, IsUpper, SpaceBeforeDots;
    var x := DropDots(Trim(host));
    var y := Lower(x);
    SpaceIsLast(host);
    if SpaceBeforeDots(host) {
      TrimFixed(y);
      assert y[0] == LowerChar(x[0]) && x[0] == Trim(host)[0];
      assert |NormalizeHost(y)| <= |Trim(y)| < |y|;
    } else {
      NormalStays(y);
    }
  }

  /** The failing family is not empty: "a ." becomes "a " and then "a". */
  lemma HostNotIdempotent()
    ensures NormalizeHost(NormalizeHost("a .")) != NormalizeHost("a .")
  {
    assert TrimStart("a .") == "a ." && TrimEnd("a .") == "a .";
    assert SpaceBeforeDots("a .") by {
      var t := Trim("a .");
      assert t == "a .";
      assert IsWhitespace(t[1]) && OnlyDots(t, 1 + 1);
    }
    HostIdempotentIff("a .");
  }

  /** `registry_hosts`: grows the list repository by repository, host by host, skipping repetitions. */
  method ComputeRegistryHosts(repositories: seq<string>) returns (hosts: seq<string>)
    ensures hosts == RegistryHosts(repositories)
    ensures Distinct(hosts)
    ensures forall h :: h in hosts <==> exists i :: 0 <= i < |repositories| && h in RepositoryHosts(repositories[i])
  {
    hosts := [];
    for i := 0 to |repositories|
      invariant hosts == RegistryHosts(repositories[..i])
    {
      var more := RepositoryHosts(repositories[i]);
      ghost var before := hosts;
      for j := 0 to |more|
        invariant Absorb(hosts, more[j..]) == Absorb(before, more)
      {
        assert more[j..][1..] == more[j + 1..];
        if more[j] !in hosts {
          hosts := hosts + [more[j]];
        }
      }
      assert more[|more|..] == [];
      assert repositories[..i + 1][..i] == repositories[..i];
    }
    assert repositories[..|repositories|] == repositories;
    RegistryHostsDistinct(repositories);
  }
}
