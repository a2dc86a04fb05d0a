/** Whether a run-scoped grant authorises a provider request, decided before any store is opened. */
module SecretGrants {
  import opened Common
  import opened Text

  datatype SecretScope = Home | Machine(id: string)

  datatype AllowedSecret = AllowedSecret(slot: string, key: string, field: SecretField, backingScope: SecretScope)

  datatype SecretGrant = SecretGrant(version: nat, store: string, machine: string, run: string, allowed: seq<AllowedSecret>)

  datatype Request = Request(machine: string, run: string, names: seq<string>)

  /** A store path; the text is missing when the path is not UTF-8. */
  datatype StorePath = StorePath(absolute: bool, text: Option<string>)

  datatype SecretError = InvalidRequest | Unauthorized

  predicate Identifiable(path: StorePath) {
    path.absolute && path.text.Some?
  }

  function FileIdentity(path: StorePath): (r: Result<string, SecretError>)
    ensures r.Ok? <==> Identifiable(path)
    ensures r.Ok? ==> r.value == "file:" + path.text.value
    ensures r.Err? ==> r.error == InvalidRequest
  {
    if !path.absolute || path.text.None? then Err(InvalidRequest) else Ok("file:" + path.text.value)
  }

  /** Two stores with the same identity have the same path. */
  lemma IdentityIsInjective(a: StorePath, b: StorePath)
    requires Identifiable(a) && Identifiable(b) && FileIdentity(a) == FileIdentity(b)
    ensures a == b
  {
    assert a.text.value == ("file:" + a.text.value)[5..];
    assert b.text.value == ("file:" + b.text.value)[5..];
  }

  /** The grant is for this store, this machine and this run. */
  predicate HeaderOk(g: SecretGrant, store: StorePath, q: Request) {
    && g.version == 2 && Identifiable(store) && g.store == "file:" + store.text.value
    && g.run != "" && g.machine == q.machine && g.run == q.run
  }

  predicate EntryOk(g: SecretGrant, e: AllowedSecret) {
    && !StartsWith(e.slot, "silo.") && !StartsWith(e.key, "silo.")
    && e.field != Value
    && (e.backingScope.Machine? ==> e.backingScope.id == g.machine)
  }

  ghost predicate EntriesOk(g: SecretGrant) {
    && (forall i :: 0 <= i < |g.allowed| ==> EntryOk(g, g.allowed[i]))
    && (forall i, j :: 0 <= i < j < |g.allowed| ==> g.allowed[i].slot != g.allowed[j].slot)
  }

  ghost predicate Names(e: AllowedSecret, g: SecretGrant, name: string) {
    e in g.allowed && e.slot == name
  }

  ghost predicate Allowed(g: SecretGrant, name: string) {
    exists e :: Names(e, g, name)
  }

  ghost predicate NamesOk(g: SecretGrant, q: Request) {
    && q.names != [] && Distinct(q.names)
    && forall i :: 0 <= i < |q.names| ==> Allowed(g, q.names[i])
  }

  ghost predicate Authorized(g: SecretGrant, store: StorePath, q: Request) {
    HeaderOk(g, store, q) && EntriesOk(g) && NamesOk(g, q)
  }

  /** The entry and nothing but the entry for a name. */
  ghost predicate OnlyEntry(g: SecretGrant, name: string, e: AllowedSecret) {
    && Names(e, g, name)
    && forall i, j :: 0 <= i < j < |g.allowed| ==> !(g.allowed[i].slot == name && g.allowed[j].slot == name)
  }

  /** Every entry is checked, requested or not. */
  method CheckEntries(g: SecretGrant) returns (ok: bool)
    ensures ok <==> EntriesOk(g)
  {
    hide StartsWith;
    var slots: set<string> := {};
    for i := 0 to |g.allowed|
      invariant slots == set k | 0 <= k < i :: g.allowed[k].slot
      invariant forall k :: 0 <= k < i ==> EntryOk(g, g.allowed[k])
      invariant forall k, l :: 0 <= k < l < i ==> g.allowed[k].slot != g.allowed[l].slot
    {
      var e := g.allowed[i];
      if e.slot in slots || !EntryOk(g, e) {
        return false;
      }
      slots := slots + {e.slot};
    }
    return true;
  }

  method Find(g: SecretGrant, name: string) returns (e: Option<AllowedSecret>)
    ensures e.Some? ==> Names(e.value, g, name)
    ensures e.None? ==> forall x :: !Names(x, g, name)
  {
    for i := 0 to |g.allowed|
      invariant forall k :: 0 <= k < i ==> g.allowed[k].slot != name
    {
      if g.allowed[i].slot == name {
        return Some(g.allowed[i]);
      }
    }
    return None;
  }

  /** All or nothing: the entries in the order of the request, or an error. */
  method Authorize(g: SecretGrant, store: StorePath, q: Request) returns (r: Result<seq<AllowedSecret>, SecretError>)
    ensures r.Ok? <==> Authorized(g, store, q)
    ensures r.Ok? ==> |r.value| == |q.names| && forall i :: 0 <= i < |q.names| ==> OnlyEntry(g, q.names[i], r.value[i])
    ensures r == Err(InvalidRequest) <==> g.version == 2 && !Identifiable(store)
  {
    hide EntryOk;
    if g.version != 2 {
      return Err(Unauthorized);
    }
    var identity := FileIdentity(store);
    if identity.Err? {
      return Err(identity.error);
    }
    if g.store != identity.value || g.run == "" || g.machine != q.machine || g.run != q.run {
      return Err(Unauthorized);
    }
    var entriesOk := CheckEntries(g);
    if !entriesOk {
      return Err(Unauthorized);
    }
    if q.names == [] {
      return Err(Unauthorized);
    }
    var names: set<string> := {};
    var found: seq<AllowedSecret> := [];
    for i := 0 to |q.names|
      invariant names == set k | 0 <= k < i :: q.names[k]
      invariant forall k, l :: 0 <= k < l < i ==> q.names[k] != q.names[l]
      invariant |found| == i && forall k :: 0 <= k < i ==> Names(found[k], g, q.names[k]) && Allowed(g, q.names[k])
    {
      if q.names[i] in names {
        return Err(Unauthorized);
      }
      names := names + {q.names[i]};
      var e := Find(g, q.names[i]);
      if e.None? {
        return Err(Unauthorized);
      }
      found := found + [e.value];
    }
    return Ok(found);
  }
}
