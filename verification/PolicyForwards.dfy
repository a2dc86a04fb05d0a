/** Forward declarations: their transport, the diagnostics about them, and their normal form. */
module PolicyForwards {
  import opened Common
  import opened Text
  import opened PolicyModel

  /** Transport of a forward: an error, no Tailscale listener, or the listener's port. */
  function Transport(f: Forward): (r: Result<Option<nat>, string>)
    ensures r.Ok? && r.value.Some? ==> IsSelf(f) && 0 < r.value.value <= 65535 && r.value.value != 22
  {
    if f.protocol == Tcp && f.tls then Err("TCP forwards cannot configure TLS")
    else if f.protocol == Https && !IsSelf(f) then Err("HTTPS forwards require Tailscale target self")
    else if f.protocol == Https && !f.tls then Err("HTTPS forwards require tls.provider = tailscale")
    else if !IsSelf(f) then Ok(None)
    else if !StartsWith(f.listen, ":") || |f.listen| == 1 || !AllDigits(f.listen[1..]) then
      Err("Tailscale/self listen must be :<decimal port>")
    else
      var port := NumberOf(f.listen[1..]);
      if port > 65535 then Err("forward listen port must be between 1 and 65535")
      else if port == 0 || port == 22 then
        Err("forward listen port must be between 1 and 65535, excluding reserved SSH port 22")
      else Ok(Some(port))
  }

  predicate IsSelf(f: Forward) {
    f.kind == "tailscale" && f.target == "self"
  }

  predicate ValidTarget(target: string) {
    || (StartsWith(target, "name:") && |target| > 5)
    || (StartsWith(target, "id:") && |target| > 3)
    || (StartsWith(target, "label:") && |target| > 6)
  }

  function Listener(f: Forward): Option<nat> {
    if Transport(f).Ok? then Transport(f).value else None
  }

  // What the forwards before a position have used up

  function NamesBefore(fs: seq<Forward>, n: nat): set<string>
    requires n <= |fs|
  {
    set i | 0 <= i < n :: fs[i].name
  }

  function ListenersBefore(fs: seq<Forward>, n: nat): set<nat>
    requires n <= |fs|
  {
    set i | 0 <= i < n && Listener(fs[i]).Some? :: Listener(fs[i]).value
  }

  function When(fails: bool, summary: string, details: seq<string>): seq<Diagnostic> {
    if fails then [Diagnostic(Error, summary, details)] else []
  }

  function NameDiagnostics(kind: Kind, name: string): seq<Diagnostic> {
    When(name == "silo" && (kind == CredentialName || kind == TunnelName), "reserved policy object name", [name])
    + When(!ValidIdentifier(name), "invalid policy object name", [name])
  }

  function TunnelDiagnostics(f: Forward, tunnels: set<string>): seq<Diagnostic> {
    if f.kind == "host" then When(f.tunnel.Some?, "host forward cannot reference a tunnel", [f.name])
    else if f.kind == "tailscale" then
      if f.tunnel.Some? then
        When(f.tunnel.value !in tunnels, "forward references unknown tunnel", [f.name, f.tunnel.value])
      else When(f.target != "self", "missing forward tunnel", [f.name])
    else When(true, "unsupported forward kind", [f.name, f.kind])
  }

  function TransportDiagnostics(f: Forward, listeners: set<nat>): seq<Diagnostic> {
    match Transport(f)
    case Ok(None) => []
    case Ok(Some(port)) =>
      When(port in listeners, "duplicate forward listener", [f.name, ":" + Decimal(port)])
    case Err(detail) => When(true, "invalid forward transport", [f.name, detail])
  }

  function OneForward(f: Forward, tunnels: set<string>, names: set<string>, listeners: set<nat>): seq<Diagnostic> {
    NameDiagnostics(ForwardName, f.name)
    + When(f.name in names, "duplicate forward name", [f.name])
    + TunnelDiagnostics(f, tunnels)
    + When(f.targetPort == 0, "invalid forward target port", [f.name])
    + When(!ValidTarget(f.target) && !IsSelf(f), "invalid forward target selector", [f.name])
    + TransportDiagnostics(f, listeners)
  }

  /** Everything the forward pass reports about the first `n` forwards. */
  function ForwardDiagnostics(fs: seq<Forward>, tunnels: set<string>, n: nat): seq<Diagnostic>
    requires n <= |fs|
  {
    if n == 0 then []
    else
      ForwardDiagnostics(fs, tunnels, n - 1)
      + OneForward(fs[n - 1], tunnels, NamesBefore(fs, n - 1), ListenersBefore(fs, n - 1))
  }

  // When a policy's forwards are well formed

  ghost predicate ForwardOk(ts: seq<Tunnel>, f: Forward) {
    && NameOk(ForwardName, f.name)
    && (f.kind == "host" || f.kind == "tailscale")
    && (f.kind == "host" ==> f.tunnel.None?)
    && (f.kind == "tailscale" ==> if f.tunnel.Some? then TunnelDeclared(ts, f.tunnel.value) else f.target == "self")
    && f.targetPort != 0
    && (ValidTarget(f.target) || IsSelf(f))
    && Transport(f).Ok?
  }

  predicate ForwardsApart(a: Forward, b: Forward) {
    a.name != b.name && (Listener(a).Some? ==> Listener(a) != Listener(b))
  }

  ghost predicate ForwardsOk(ts: seq<Tunnel>, fs: seq<Forward>) {
    && (forall i :: 0 <= i < |fs| ==> ForwardOk(ts, fs[i]))
    && (forall i, j :: 0 <= i < j < |fs| ==> ForwardsApart(fs[i], fs[j]))
  }

  function TunnelNames(ts: seq<Tunnel>): set<string> {
    set i | 0 <= i < |ts| :: ts[i].name
  }

  lemma CleanSum(a: seq<Diagnostic>, b: seq<Diagnostic>)
    ensures Clean(a + b) <==> Clean(a) && Clean(b)
  {
    if Clean(a + b) {
      forall i | 0 <= i < |a| ensures a[i].severity != Error {
        assert (a + b)[i] == a[i];
      }
      forall i | 0 <= i < |b| ensures b[i].severity != Error {
        assert (a + b)[|a| + i] == b[i];
      }
    }
  }

  lemma CleanWhen(fails: bool, summary: string, details: seq<string>)
    ensures Clean(When(fails, summary, details)) <==> !fails
  {
    if fails {
      assert When(fails, summary, details)[0].severity == Error;
    }
  }

  lemma CleanName(kind: Kind, name: string)
    ensures Clean(NameDiagnostics(kind, name)) <==> NameOk(kind, name)
  {
    CleanWhen(name == "silo" && (kind == CredentialName || kind == TunnelName), "reserved policy object name", [name]);
    CleanWhen(!ValidIdentifier(name), "invalid policy object name", [name]);
    CleanSum(When(name == "silo" && (kind == CredentialName || kind == TunnelName), "reserved policy object name", [name]),
             When(!ValidIdentifier(name), "invalid policy object name", [name]));
  }

  lemma CleanTunnel(f: Forward, ts: seq<Tunnel>)
    ensures Clean(TunnelDiagnostics(f, TunnelNames(ts))) <==>
            && (f.kind == "host" || f.kind == "tailscale")
            && (f.kind == "host" ==> f.tunnel.None?)
            && (f.kind == "tailscale" ==> if f.tunnel.Some? then TunnelDeclared(ts, f.tunnel.value) else f.target == "self")
  {
    hide Clean;
    if f.kind == "host" {
      CleanWhen(f.tunnel.Some?, "host forward cannot reference a tunnel", [f.name]);
    } else if f.kind == "tailscale" && f.tunnel.Some? {
      CleanWhen(f.tunnel.value !in TunnelNames(ts), "forward references unknown tunnel", [f.name, f.tunnel.value]);
    } else if f.kind == "tailscale" {
      CleanWhen(f.target != "self", "missing forward tunnel", [f.name]);
    } else {
      CleanWhen(true, "unsupported forward kind", [f.name, f.kind]);
    }
  }

  lemma CleanTransport(f: Forward, listeners: set<nat>)
    ensures Clean(TransportDiagnostics(f, listeners)) <==>
            Transport(f).Ok? && (Listener(f).Some? ==> Listener(f).value !in listeners)
  {
    match Transport(f)
    case Ok(None) =>
    case Ok(Some(port)) => CleanWhen(port in listeners, "duplicate forward listener", [f.name, ":" + Decimal(port)]);
    case Err(detail) => CleanWhen(true, "invalid forward transport", [f.name, detail]);
  }

  lemma CleanForward(f: Forward, ts: seq<Tunnel>, names: set<string>, listeners: set<nat>)
    ensures Clean(OneForward(f, TunnelNames(ts), names, listeners)) <==>
            && ForwardOk(ts, f) && f.name !in names
            && (Listener(f).Some? ==> Listener(f).value !in listeners)
  {
    hide Clean, Transport, Listener, ValidIdentifier, When, NameDiagnostics, TunnelDiagnostics, TransportDiagnostics;
    var a := NameDiagnostics(ForwardName, f.name);
    var b := When(f.name in names, "duplicate forward name", [f.name]);
    var c := TunnelDiagnostics(f, TunnelNames(ts));
    var d := When(f.targetPort == 0, "invalid forward target port", [f.name]);
    var e := When(!ValidTarget(f.target) && !IsSelf(f), "invalid forward target selector", [f.name]);
    var g := TransportDiagnostics(f, listeners);
    CleanName(ForwardName, f.name);
    CleanWhen(f.name in names, "duplicate forward name", [f.name]);
    CleanTunnel(f, ts);
    CleanWhen(f.targetPort == 0, "invalid forward target port", [f.name]);
    CleanWhen(!ValidTarget(f.target) && !IsSelf(f), "invalid forward target selector", [f.name]);
    CleanTransport(f, listeners);
    CleanSum(a, b);
    CleanSum(a + b, c);
    CleanSum(a + b + c, d);
    CleanSum(a + b + c + d, e);
    CleanSum(a + b + c + d + e, g);
  }

  /** The forward pass reports no error exactly when the forwards are well formed. */
  lemma {:induction false} CleanForwards(fs: seq<Forward>, ts: seq<Tunnel>, n: nat)
    requires n <= |fs|
    ensures Clean(ForwardDiagnostics(fs, TunnelNames(ts), n)) <==> ForwardsOk(ts, fs[..n])
  {
    hide Clean, Listener, ForwardOk, OneForward;
    if n == 0 {
      CleanNothing();
    } else {
      CleanForwards(fs, ts, n - 1);
      var before := ForwardDiagnostics(fs, TunnelNames(ts), n - 1);
      var f := fs[n - 1];
      CleanForward(f, ts, NamesBefore(fs, n - 1), ListenersBefore(fs, n - 1));
      CleanSum(before, OneForward(f, TunnelNames(ts), NamesBefore(fs, n - 1), ListenersBefore(fs, n - 1)));
      LastApart(fs, n);
      ForwardsOkStep(ts, fs, n);
    }
  }

  lemma CleanNothing()
    ensures Clean([])
  {
  }

  lemma LastApart(fs: seq<Forward>, n: nat)
    requires 0 < n <= |fs|
    ensures (forall i :: 0 <= i < n - 1 ==> ForwardsApart(fs[i], fs[n - 1])) <==>
            && fs[n - 1].name !in NamesBefore(fs, n - 1)
            && (Listener(fs[n - 1]).Some? ==> Listener(fs[n - 1]).value !in ListenersBefore(fs, n - 1))
  {
    hide Listener;
  }

  lemma ForwardsOkStep(ts: seq<Tunnel>, fs: seq<Forward>, n: nat)
    requires 0 < n <= |fs|
    ensures ForwardsOk(ts, fs[..n]) <==>
            && ForwardsOk(ts, fs[..n - 1]) && ForwardOk(ts, fs[n - 1])
            && (forall i :: 0 <= i < n - 1 ==> ForwardsApart(fs[i], fs[n - 1]))
  {
    hide ForwardOk, ForwardsApart;
    var all, most := fs[..n], fs[..n - 1];
    if ForwardsOk(ts, all) {
      assert ForwardOk(ts, all[n - 1]);
      forall i | 0 <= i < n - 1 ensures ForwardOk(ts, most[i]) && ForwardsApart(fs[i], fs[n - 1]) {
        assert ForwardOk(ts, all[i]) && ForwardsApart(all[i], all[n - 1]);
      }
      forall i, j | 0 <= i < j < n - 1 ensures ForwardsApart(most[i], most[j]) {
        assert ForwardsApart(all[i], all[j]);
      }
    }
    if && ForwardsOk(ts, most) && ForwardOk(ts, fs[n - 1])
       && (forall i :: 0 <= i < n - 1 ==> ForwardsApart(fs[i], fs[n - 1])) {
      forall i | 0 <= i < n ensures ForwardOk(ts, all[i]) {
        assert i < n - 1 ==> ForwardOk(ts, most[i]);
      }
      forall i, j | 0 <= i < j < n ensures ForwardsApart(all[i], all[j]) {
        assert j < n - 1 ==> ForwardsApart(most[i], most[j]);
      }
    }
  }

  // Normal form

  /** A Tailscale listener is rewritten to its shortest decimal port; nothing else changes. */
  function Normalize(f: Forward): Forward {
    if IsSelf(f) && Listener(f).Some? then f.(listen := ":" + Decimal(Listener(f).value)) else f
  }

  function NormalizeAll(fs: seq<Forward>): seq<Forward> {
    seq(|fs|, i requires 0 <= i < |fs| => Normalize(fs[i]))
  }

  /** Rewriting the listener keeps the transport, with every error and every port. */
  lemma NormalizeKeepsTransport(f: Forward)
    ensures Transport(Normalize(f)) == Transport(f)
  {
    if IsSelf(f) && Listener(f).Some? {
      var port := Listener(f).value;
      NumberOfDecimal(port);
      assert Normalize(f).listen[1..] == Decimal(port);
      assert Normalize(f).listen[..1] == ":";
    }
  }

  lemma NormalizeIdempotent(f: Forward)
    ensures Normalize(Normalize(f)) == Normalize(f)
  {
    NormalizeKeepsTransport(f);
  }

  lemma NormalizeKeepsUsed(fs: seq<Forward>, n: nat)
    requires n <= |fs|
    ensures NamesBefore(NormalizeAll(fs), n) == NamesBefore(fs, n)
    ensures ListenersBefore(NormalizeAll(fs), n) == ListenersBefore(fs, n)
  {
    hide Transport;
    var gs := NormalizeAll(fs);
    forall i | 0 <= i < n ensures gs[i].name == fs[i].name && Listener(gs[i]) == Listener(fs[i]) {
      NormalizeKeepsTransport(fs[i]);
    }
    assert forall x :: x in NamesBefore(gs, n) <==> x in NamesBefore(fs, n);
    forall x ensures x in ListenersBefore(gs, n) <==> x in ListenersBefore(fs, n) {
      if x in ListenersBefore(gs, n) {
        var i :| 0 <= i < n && Listener(gs[i]).Some? && Listener(gs[i]).value == x;
        assert Listener(fs[i]).value == x;
      }
      if x in ListenersBefore(fs, n) {
        var i :| 0 <= i < n && Listener(fs[i]).Some? && Listener(fs[i]).value == x;
        assert Listener(gs[i]).value == x;
      }
    }
  }

  lemma NormalizeKeepsOne(f: Forward, tunnels: set<string>, names: set<string>, listeners: set<nat>)
    ensures OneForward(Normalize(f), tunnels, names, listeners) == OneForward(f, tunnels, names, listeners)
  {
    NormalizeKeepsTransport(f);
    hide Transport, NameDiagnostics, When;
    assert TransportDiagnostics(Normalize(f), listeners) == TransportDiagnostics(f, listeners);
    assert TunnelDiagnostics(Normalize(f), tunnels) == TunnelDiagnostics(f, tunnels);
  }

  /** Normalising changes no forward diagnostic: `:0080` and `:80` collide before and after. */
  lemma {:induction false} NormalizeKeepsDiagnostics(fs: seq<Forward>, tunnels: set<string>, n: nat)
    requires n <= |fs|
    ensures ForwardDiagnostics(NormalizeAll(fs), tunnels, n) == ForwardDiagnostics(fs, tunnels, n)
  {
    hide OneForward, Normalize, NamesBefore, ListenersBefore;
    if n > 0 {
      NormalizeKeepsDiagnostics(fs, tunnels, n - 1);
      NormalizeKeepsUsed(fs, n - 1);
      NormalizeKeepsOne(fs[n - 1], tunnels, NamesBefore(fs, n - 1), ListenersBefore(fs, n - 1));
    }
  }

  /** `NetworkPolicy::normalize` on the forwards, in place. */
  method NormalizeInPlace(fs: array<Forward>)
    modifies fs
    ensures fs[..] == NormalizeAll(old(fs[..]))
  {
    hide Normalize;
    for i := 0 to fs.Length
      invariant forall j :: 0 <= j < i ==> fs[j] == Normalize(old(fs[j]))
      invariant forall j :: i <= j < fs.Length ==> fs[j] == old(fs[j])
    {
      fs[i] := Normalize(fs[i]);
    }
  }
}
