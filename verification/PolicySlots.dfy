/** The secret slots a policy derives from its credentials and tunnels, and why they never collide. */
module PolicySlots {
  import opened Common
  import opened Text
  import opened PolicyModel

  /** One secret a credential kind needs: the slot's suffix, whether it is required, and the field read. */
  datatype Need = Need(suffix: string, required: bool, field: SecretField)

  /** A slot: its name, and the store key and field it is filled from. */
  datatype Slot = Slot(name: string, required: bool, key: string, field: SecretField)

  function Needs(kind: string): seq<Need> {
    if kind == "basic_auth" then [Need("password", true, Value)]
    else if kind == "bearer_token" || kind == "header_token" then [Need("token", true, Value)]
    else if kind == "github_oauth" || kind == "openai_codex_oauth" then
      [Need("oauth.access_token", true, OAuthAccessToken),
       Need("oauth.expires_at", true, OAuthExpiresAt),
       Need("oauth.account_id", false, OAuthAccountId)]
    else if kind == "aws_credential" then
      [Need("access_key_id", true, Value),
       Need("secret_access_key", true, Value),
       Need("session_token", false, Value),
       Need("profile", false, Value)]
    else []
  }

  /** `SecretName::new` accepts: non-empty, no empty dot-separated segment, a small alphabet. */
  predicate SecretName(s: string) {
    && s != [] && s[0] != '.' && s[|s| - 1] != '.'
    && (forall i :: 0 <= i < |s| ==> IsAlphanumeric(s[i]) || s[i] == '.' || s[i] == '_' || s[i] == '-')
    && (forall i :: 0 <= i < |s| - 1 && s[i] == '.' ==> s[i + 1] != '.')
  }

  predicate SlotStart(c: char) {
    IsLower(c) || IsDigit(c) || c == '_'
  }

  /** A valid slot: dot-separated segments, each a lowercase start followed by lowercase, digits, `_`, `-`. */
  predicate ValidSlot(s: string) {
    && s != [] && SlotStart(s[0]) && s[|s| - 1] != '.'
    && (forall i :: 0 <= i < |s| ==> SlotStart(s[i]) || s[i] == '-' || s[i] == '.')
    && (forall i :: 0 <= i < |s| - 1 && s[i] == '.' ==> SlotStart(s[i + 1]))
  }

  /** OAuth fields of one credential live in one record, so they share its key. */
  function KeyPart(n: Need): string {
    if n.field == Value then n.suffix else "oauth"
  }

  function KeyOf(x: Credential, n: Need): string {
    x.kind + "." + (x.name + "." + KeyPart(n))
  }

  function SlotOf(x: Credential, n: Need): Slot {
    Slot(x.name + "." + n.suffix, n.required, KeyOf(x, n), n.field)
  }

  /** The slots of the first `n` needs; a need whose key is no secret name yields none. */
  function SlotsUpTo(x: Credential, n: nat): seq<Slot>
    requires n <= |Needs(x.kind)|
  {
    if n == 0 then []
    else
      SlotsUpTo(x, n - 1)
      + if SecretName(KeyOf(x, Needs(x.kind)[n - 1])) then [SlotOf(x, Needs(x.kind)[n - 1])] else []
  }

  function CredentialSlots(x: Credential): seq<Slot> {
    SlotsUpTo(x, |Needs(x.kind)|)
  }

  const TUNNEL_FIELDS: seq<string> := ["auth_key", "client_secret", "api_token"]

  function TunnelSlot(t: Tunnel, field: string): Slot {
    Slot(t.name + "." + ("tailscale." + field), false, "tailscale" + "." + (t.name + "." + field), Value)
  }

  function TunnelSlotsUpTo(t: Tunnel, n: nat): seq<Slot>
    requires n <= 3
  {
    if n == 0 then []
    else
      var slot := TunnelSlot(t, TUNNEL_FIELDS[n - 1]);
      TunnelSlotsUpTo(t, n - 1) + if SecretName(slot.key) then [slot] else []
  }

  function CredentialsSlots(xs: seq<Credential>, n: nat): seq<Slot>
    requires n <= |xs|
  {
    if n == 0 then [] else CredentialsSlots(xs, n - 1) + CredentialSlots(xs[n - 1])
  }

  function TunnelsSlots(ts: seq<Tunnel>, n: nat): seq<Slot>
    requires n <= |ts|
  {
    if n == 0 then [] else TunnelsSlots(ts, n - 1) + TunnelSlotsUpTo(ts[n - 1], 3)
  }

  function SecretSlots(p: Policy): seq<Slot> {
    CredentialsSlots(p.credentials, |p.credentials|) + TunnelsSlots(p.tailscale, |p.tailscale|)
  }

  ghost predicate SlotsOk(p: Policy) {
    var ss := SecretSlots(p);
    forall i :: 0 <= i < |ss| ==> ValidSlot(ss[i].name)
  }

  // Names without dots before a dot can be read back

  predicate NoDot(s: string) {
    forall i :: 0 <= i < |s| ==> s[i] != '.'
  }

  lemma HeadReadsBack(a: string, s: string, b: string, t: string)
    requires NoDot(a) && NoDot(b)
    requires a + "." + s == b + "." + t
    ensures a == b && s == t
  {
    var whole := a + "." + s;
    assert whole[|a|] == '.' && whole[|b|] == '.';
    assert |a| == |b|;
    assert a == whole[..|a|] == b;
    assert s == whole[|a| + 1..] == t;
  }

  /** Two slots never share a name, and never read the same field of the same record. */
  predicate SlotsApart(a: Slot, b: Slot) {
    a.name != b.name && (a.key != b.key || a.field != b.field)
  }

  ghost predicate AllApart(ss: seq<Slot>) {
    forall i, j :: 0 <= i < j < |ss| ==> SlotsApart(ss[i], ss[j])
  }

  ghost predicate Disjoint(ss: seq<Slot>, tt: seq<Slot>) {
    forall i, j :: 0 <= i < |ss| && 0 <= j < |tt| ==> SlotsApart(ss[i], tt[j])
  }

  lemma ApartSum(ss: seq<Slot>, tt: seq<Slot>)
    requires AllApart(ss) && AllApart(tt) && Disjoint(ss, tt)
    ensures AllApart(ss + tt)
  {
    hide SlotsApart;
    var all := ss + tt;
    forall i, j | 0 <= i < j < |all| ensures SlotsApart(all[i], all[j]) {
      if i < |ss| {
        if j < |ss| {
          assert SlotsApart(ss[i], ss[j]);
        } else {
          assert SlotsApart(ss[i], tt[j - |ss|]);
        }
      } else {
        assert SlotsApart(tt[i - |ss|], tt[j - |ss|]);
      }
    }
  }

  // Where a slot comes from

  ghost predicate FromCredential(s: Slot, x: Credential) {
    exists k :: 0 <= k < |Needs(x.kind)| && s == SlotOf(x, Needs(x.kind)[k])
  }

  ghost predicate FromTunnel(s: Slot, t: Tunnel) {
    exists k :: 0 <= k < 3 && s == TunnelSlot(t, TUNNEL_FIELDS[k])
  }

  lemma {:induction false} SlotsComeFrom(x: Credential, n: nat, i: nat)
    requires n <= |Needs(x.kind)| && i < |SlotsUpTo(x, n)|
    ensures exists k :: 0 <= k < n && SlotsUpTo(x, n)[i] == SlotOf(x, Needs(x.kind)[k])
  {
    if i < |SlotsUpTo(x, n - 1)| {
      SlotsComeFrom(x, n - 1, i);
    }
  }

  lemma {:induction false} TunnelSlotsComeFrom(t: Tunnel, n: nat, i: nat)
    requires n <= 3 && i < |TunnelSlotsUpTo(t, n)|
    ensures exists k :: 0 <= k < n && TunnelSlotsUpTo(t, n)[i] == TunnelSlot(t, TUNNEL_FIELDS[k])
  {
    if i < |TunnelSlotsUpTo(t, n - 1)| {
      TunnelSlotsComeFrom(t, n - 1, i);
    }
  }

  lemma {:induction false} CredentialsComeFrom(xs: seq<Credential>, n: nat, i: nat)
    requires n <= |xs| && i < |CredentialsSlots(xs, n)|
    ensures exists k :: 0 <= k < n && FromCredential(CredentialsSlots(xs, n)[i], xs[k])
  {
    hide FromCredential, SlotsUpTo;
    var before := CredentialsSlots(xs, n - 1);
    if i < |before| {
      CredentialsComeFrom(xs, n - 1, i);
    } else {
      CredentialSlotComesFrom(xs[n - 1], i - |before|);
      assert FromCredential(CredentialsSlots(xs, n)[i], xs[n - 1]);
    }
  }

  lemma CredentialSlotComesFrom(x: Credential, i: nat)
    requires i < |CredentialSlots(x)|
    ensures FromCredential(CredentialSlots(x)[i], x)
  {
    SlotsComeFrom(x, |Needs(x.kind)|, i);
  }

  lemma {:induction false} TunnelsComeFrom(ts: seq<Tunnel>, n: nat, i: nat)
    requires n <= |ts| && i < |TunnelsSlots(ts, n)|
    ensures exists k :: 0 <= k < n && FromTunnel(TunnelsSlots(ts, n)[i], ts[k])
  {
    hide SlotsUpTo, TunnelSlotsUpTo, TunnelSlot;
    var before := TunnelsSlots(ts, n - 1);
    if i < |before| {
      TunnelsComeFrom(ts, n - 1, i);
    } else {
      TunnelSlotsComeFrom(ts[n - 1], 3, i - |before|);
      assert FromTunnel(TunnelsSlots(ts, n)[i], ts[n - 1]);
    }
  }

  // Apartness, case by case

  /** Within one kind the suffixes differ, and so do the record parts read. */
  lemma NeedsApart(kind: string, j: nat, k: nat)
    requires j < k < |Needs(kind)|
    ensures var a, b := Needs(kind)[j], Needs(kind)[k];
            a.suffix != b.suffix && (a.field != b.field || (a.field == Value && b.field == Value))
  {
  }

  lemma SameOwnerApart(x: Credential, j: nat, k: nat)
    requires NoDot(x.kind) && NoDot(x.name) && j < k < |Needs(x.kind)|
    ensures SlotsApart(SlotOf(x, Needs(x.kind)[j]), SlotOf(x, Needs(x.kind)[k]))
  {
    NeedsApart(x.kind, j, k);
    var a, b := Needs(x.kind)[j], Needs(x.kind)[k];
    hide Needs;
    if x.name + "." + a.suffix == x.name + "." + b.suffix {
      HeadReadsBack(x.name, a.suffix, x.name, b.suffix);
    }
    if KeyOf(x, a) == KeyOf(x, b) && a.field == b.field {
      HeadReadsBack(x.kind, x.name + "." + a.suffix, x.kind, x.name + "." + b.suffix);
      HeadReadsBack(x.name, a.suffix, x.name, b.suffix);
    }
  }

  lemma OwnersApart(x: Credential, y: Credential, s: Slot, t: Slot)
    requires NoDot(x.kind) && NoDot(x.name) && NoDot(y.kind) && NoDot(y.name) && x.name != y.name
    requires FromCredential(s, x) && FromCredential(t, y)
    ensures SlotsApart(s, t)
  {
    hide Needs, KeyPart;
    var j :| 0 <= j < |Needs(x.kind)| && s == SlotOf(x, Needs(x.kind)[j]);
    var k :| 0 <= k < |Needs(y.kind)| && t == SlotOf(y, Needs(y.kind)[k]);
    var a, b := Needs(x.kind)[j], Needs(y.kind)[k];
    var u, v := KeyPart(a), KeyPart(b);
    if s.name == t.name {
      HeadReadsBack(x.name, a.suffix, y.name, b.suffix);
    }
    if s.key == t.key {
      HeadReadsBack(x.kind, x.name + "." + u, y.kind, y.name + "." + v);
      HeadReadsBack(x.name, u, y.name, v);
    }
  }

  /** No credential kind is called `tailscale`, and none has a suffix that starts with it. */
  lemma NoTailscaleNeed(kind: string, k: nat, field: string)
    requires k < |Needs(kind)|
    ensures kind != "tailscale" && Needs(kind)[k].suffix != "tailscale." + field
  {
    var suffix := Needs(kind)[k].suffix;
    assert suffix[0] != 't' || suffix[1] != 'a';
    assert ("tailscale." + field)[..2] == "ta";
  }

  lemma TunnelApart(x: Credential, t: Tunnel, s: Slot, u: Slot)
    requires NoDot(x.kind) && NoDot(x.name) && NoDot(t.name)
    requires FromCredential(s, x) && FromTunnel(u, t)
    ensures SlotsApart(s, u)
  {
    hide Needs, KeyPart;
    var j :| 0 <= j < |Needs(x.kind)| && s == SlotOf(x, Needs(x.kind)[j]);
    var k :| 0 <= k < 3 && u == TunnelSlot(t, TUNNEL_FIELDS[k]);
    NoTailscaleNeed(x.kind, j, TUNNEL_FIELDS[k]);
    var a := Needs(x.kind)[j];
    var v := KeyPart(a);
    if s.name == u.name {
      HeadReadsBack(x.name, a.suffix, t.name, "tailscale." + TUNNEL_FIELDS[k]);
    }
    if s.key == u.key {
      HeadReadsBack(x.kind, x.name + "." + v, "tailscale", t.name + "." + TUNNEL_FIELDS[k]);
    }
  }

  lemma SameTunnelApart(t: Tunnel, j: nat, k: nat)
    requires NoDot(t.name) && j < k < 3
    ensures SlotsApart(TunnelSlot(t, TUNNEL_FIELDS[j]), TunnelSlot(t, TUNNEL_FIELDS[k]))
  {
    var f, g := TUNNEL_FIELDS[j], TUNNEL_FIELDS[k];
    assert f != g;
    if TunnelSlot(t, f).name == TunnelSlot(t, g).name {
      HeadReadsBack(t.name, "tailscale." + f, t.name, "tailscale." + g);
      HeadReadsBack("tailscale", f, "tailscale", g);
    }
    if TunnelSlot(t, f).key == TunnelSlot(t, g).key {
      HeadReadsBack("tailscale", t.name + "." + f, "tailscale", t.name + "." + g);
      HeadReadsBack(t.name, f, t.name, g);
    }
  }

  // Whole policies

  lemma {:induction false} CredentialSlotsApart(x: Credential, n: nat)
    requires NoDot(x.kind) && NoDot(x.name) && n <= |Needs(x.kind)|
    ensures AllApart(SlotsUpTo(x, n))
  {
    hide Needs, SlotsApart, SlotOf, SecretName;
    if n > 0 {
      CredentialSlotsApart(x, n - 1);
      var before := SlotsUpTo(x, n - 1);
      var last := SlotOf(x, Needs(x.kind)[n - 1]);
      forall i | 0 <= i < |before| ensures SlotsApart(before[i], last) {
        SlotsComeFrom(x, n - 1, i);
        var k :| 0 <= k < n - 1 && before[i] == SlotOf(x, Needs(x.kind)[k]);
        SameOwnerApart(x, k, n - 1);
      }
      ApartSum(before, [last]);
    }
  }

  lemma {:induction false} TunnelSlotsApart(t: Tunnel, n: nat)
    requires NoDot(t.name) && n <= 3
    ensures AllApart(TunnelSlotsUpTo(t, n))
  {
    hide SlotsApart, TunnelSlot, SecretName;
    if n > 0 {
      TunnelSlotsApart(t, n - 1);
      var before := TunnelSlotsUpTo(t, n - 1);
      var last := TunnelSlot(t, TUNNEL_FIELDS[n - 1]);
      forall i | 0 <= i < |before| ensures SlotsApart(before[i], last) {
        TunnelSlotsComeFrom(t, n - 1, i);
        var k :| 0 <= k < n - 1 && before[i] == TunnelSlot(t, TUNNEL_FIELDS[k]);
        SameTunnelApart(t, k, n - 1);
      }
      ApartSum(before, [last]);
    }
  }

  lemma IdentifierHasNoDot(kind: Kind, name: string)
    requires NameOk(kind, name)
    ensures NoDot(name)
  {
  }

  lemma KindHasNoDot(kind: string)
    requires SupportedCredential(kind)
    ensures NoDot(kind)
  {
  }

  ghost predicate Owner(x: Credential) {
    NoDot(x.kind) && NoDot(x.name)
  }

  lemma {:induction false} CredentialsSlotsApart(xs: seq<Credential>, n: nat)
    requires n <= |xs|
    requires forall i :: 0 <= i < n ==> Owner(xs[i])
    requires forall i, j :: 0 <= i < j < |xs| ==> xs[i].name != xs[j].name
    ensures AllApart(CredentialsSlots(xs, n))
  {
    if n > 0 {
      hide Needs, SlotsApart, SlotsUpTo, FromCredential, NoDot;
      CredentialsSlotsApart(xs, n - 1);
      var before, last := CredentialsSlots(xs, n - 1), CredentialSlots(xs[n - 1]);
      CredentialSlotsApart(xs[n - 1], |Needs(xs[n - 1].kind)|);
      forall i, j | 0 <= i < |before| && 0 <= j < |last| ensures SlotsApart(before[i], last[j]) {
        CredentialsComeFrom(xs, n - 1, i);
        var k :| 0 <= k < n - 1 && FromCredential(before[i], xs[k]);
        CredentialSlotComesFrom(xs[n - 1], j);
        OwnersApart(xs[k], xs[n - 1], before[i], last[j]);
      }
      ApartSum(before, last);
    }
  }

  /**
   * In a policy whose credentials and tunnels are well formed, no two derived slots share a name, and
   * no two read the same field under the same store key.
   */
  lemma SlotsNeverCollide(c: Compilers, p: Policy)
    requires CredentialsOk(c, p.endpoints, p.credentials) && TunnelsOk(p.tailscale)
    ensures AllApart(SecretSlots(p))
  {
    hide Needs, SlotsApart, SlotsUpTo, FromCredential, FromTunnel, NoDot, NameOk, SupportedCredential;
    var xs, ts := p.credentials, p.tailscale;
    forall i | 0 <= i < |xs| ensures Owner(xs[i]) {
      assert CredentialOk(c, p.endpoints, xs[i]);
      IdentifierHasNoDot(CredentialName, xs[i].name);
      KindHasNoDot(xs[i].kind);
    }
    CredentialsSlotsApart(xs, |xs|);
    if |ts| == 1 {
      IdentifierHasNoDot(TunnelName, ts[0].name);
      TunnelSlotsApart(ts[0], 3);
      assert TunnelsSlots(ts, 1) == TunnelsSlots(ts, 0) + TunnelSlotsUpTo(ts[0], 3) == TunnelSlotsUpTo(ts[0], 3);
    }
    var own, tunnel := CredentialsSlots(xs, |xs|), TunnelsSlots(ts, |ts|);
    forall i, j | 0 <= i < |own| && 0 <= j < |tunnel| ensures SlotsApart(own[i], tunnel[j]) {
      CredentialsComeFrom(xs, |xs|, i);
      var k :| 0 <= k < |xs| && FromCredential(own[i], xs[k]);
      TunnelsComeFrom(ts, |ts|, j);
      var l :| 0 <= l < |ts| && FromTunnel(tunnel[j], ts[l]);
      assert Owner(xs[k]);
      IdentifierHasNoDot(TunnelName, ts[l].name);
      TunnelApart(xs[k], ts[l], own[i], tunnel[j]);
    }
    ApartSum(own, tunnel);
  }

  // Completeness: a valid name always gives a secret name, so no slot is dropped

  lemma JoinSecretName(a: string, b: string)
    requires SecretName(a) && SecretName(b)
    ensures SecretName(a + "." + b)
  {
    hide IsAlphanumeric;
    var s := a + "." + b;
    assert forall i :: 0 <= i < |a| ==> s[i] == a[i];
    assert forall i :: 0 <= i < |b| ==> s[|a| + 1 + i] == b[i];
    assert s[|a|] == '.';
    forall i | 0 <= i < |s| ensures IsAlphanumeric(s[i]) || s[i] == '.' || s[i] == '_' || s[i] == '-' {
      if i > |a| {
        assert s[i] == b[i - |a| - 1];
      }
    }
    forall i | 0 <= i < |s| - 1 && s[i] == '.' ensures s[i + 1] != '.' {
      if i > |a| {
        assert s[i] == b[i - |a| - 1] && s[i + 1] == b[i - |a|];
      }
    }
  }

  lemma TokenKinds()
    ensures ValidIdentifier("basic_auth") && ValidIdentifier("bearer_token") && ValidIdentifier("header_token")
  {
  }

  lemma AccountKinds()
    ensures ValidIdentifier("github_oauth") && ValidIdentifier("openai_codex_oauth") && ValidIdentifier("aws_credential")
  {
  }

  lemma KindIsIdentifier(kind: string)
    requires SupportedCredential(kind)
    ensures ValidIdentifier(kind)
  {
    hide ValidIdentifier;
    TokenKinds();
    AccountKinds();
  }

  lemma TokenParts()
    ensures ValidIdentifier("password") && ValidIdentifier("token") && ValidIdentifier("oauth") && ValidIdentifier("profile")
  {
  }

  lemma KeyParts()
    ensures ValidIdentifier("access_key_id") && ValidIdentifier("secret_access_key") && ValidIdentifier("session_token")
  {
  }

  lemma PartIsIdentifier(kind: string, k: nat)
    requires k < |Needs(kind)|
    ensures ValidIdentifier(KeyPart(Needs(kind)[k]))
  {
    hide ValidIdentifier;
    TokenParts();
    KeyParts();
  }

  lemma IdentifierIsSecretName(name: string)
    requires ValidIdentifier(name)
    ensures SecretName(name)
  {
  }

  /** A well-formed credential gets a slot for every secret its kind needs, in order. */
  lemma {:induction false} NoSlotMissing(x: Credential, n: nat)
    requires NameOk(CredentialName, x.name) && SupportedCredential(x.kind) && n <= |Needs(x.kind)|
    ensures |SlotsUpTo(x, n)| == n
    ensures forall k :: 0 <= k < n ==> SlotsUpTo(x, n)[k] == SlotOf(x, Needs(x.kind)[k])
  {
    hide Needs, SecretName, SupportedCredential, ValidIdentifier, KeyPart, SlotOf;
    if n > 0 {
      NoSlotMissing(x, n - 1);
      var part := KeyPart(Needs(x.kind)[n - 1]);
      PartIsIdentifier(x.kind, n - 1);
      KindIsIdentifier(x.kind);
      IdentifierIsSecretName(x.name);
      IdentifierIsSecretName(x.kind);
      IdentifierIsSecretName(part);
      JoinSecretName(x.name, part);
      JoinSecretName(x.kind, x.name + "." + part);
    }
  }

  lemma TunnelParts()
    ensures ValidIdentifier("tailscale") && forall k :: 0 <= k < 3 ==> ValidIdentifier(TUNNEL_FIELDS[k])
  {
    assert ValidIdentifier("auth_key") && ValidIdentifier("client_secret") && ValidIdentifier("api_token");
  }

  /** A well-named tunnel gets its three slots, in order. */
  lemma {:induction false} NoTunnelSlotMissing(t: Tunnel, n: nat)
    requires NameOk(TunnelName, t.name) && n <= 3
    ensures |TunnelSlotsUpTo(t, n)| == n
    ensures forall k :: 0 <= k < n ==> TunnelSlotsUpTo(t, n)[k] == TunnelSlot(t, TUNNEL_FIELDS[k])
  {
    if n > 0 {
      NoTunnelSlotMissing(t, n - 1);
      TunnelParts();
      hide SecretName, ValidIdentifier;
      IdentifierIsSecretName(t.name);
      IdentifierIsSecretName("tailscale");
      IdentifierIsSecretName(TUNNEL_FIELDS[n - 1]);
      JoinSecretName(t.name, TUNNEL_FIELDS[n - 1]);
      JoinSecretName("tailscale", t.name + "." + TUNNEL_FIELDS[n - 1]);
    }
  }

  /** Every secret a credential needs has its slot in the policy. */
  lemma {:induction false} CredentialSlotThere(xs: seq<Credential>, n: nat, i: nat, k: nat)
    requires i < n <= |xs| && NameOk(CredentialName, xs[i].name) && SupportedCredential(xs[i].kind)
    requires k < |Needs(xs[i].kind)|
    ensures SlotOf(xs[i], Needs(xs[i].kind)[k]) in CredentialsSlots(xs, n)
  {
    hide Needs, SlotOf, SupportedCredential, SlotsUpTo;
    if i < n - 1 {
      CredentialSlotThere(xs, n - 1, i, k);
    } else {
      NoSlotMissing(xs[i], |Needs(xs[i].kind)|);
      assert SlotsUpTo(xs[i], |Needs(xs[i].kind)|)[k] in CredentialSlots(xs[i]);
    }
  }

  /** Every field of a tunnel has its slot in the policy. */
  lemma {:induction false} TunnelSlotThere(ts: seq<Tunnel>, n: nat, i: nat, k: nat)
    requires i < n <= |ts| && NameOk(TunnelName, ts[i].name) && k < 3
    ensures TunnelSlot(ts[i], TUNNEL_FIELDS[k]) in TunnelsSlots(ts, n)
  {
    hide TunnelSlot, TunnelSlotsUpTo;
    if i < n - 1 {
      TunnelSlotThere(ts, n - 1, i, k);
    } else {
      NoTunnelSlotMissing(ts[i], 3);
      assert TunnelSlotsUpTo(ts[i], 3)[k] in TunnelSlotsUpTo(ts[i], 3);
    }
  }
}
