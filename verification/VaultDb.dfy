/** The resource handlers as they run, statement by statement, on the database rows. */
module VaultDb {
  import opened Strings
  import opened Crypto
  import opened Vault
  import opened VaultIntegrity
  import Authz

  class Database {
    const env: Env
    var namespaces: map<nat, string>
    var resources: map<nat, Resource>
    var keys: map<nat, Bytes>
    var versions: map<nat, Version>
    var nextId: nat

    function Snapshot(): Tables
      reads this
    {
      Tables(namespaces, resources, keys, versions, nextId)
    }

    constructor (env: Env)
      ensures this.env == env && Snapshot() == EMPTY
    {
      this.env := env;
      namespaces, resources, keys, versions, nextId := map[], map[], map[], map[], 0;
    }

    method FreshId() returns (id: nat)
      modifies this`nextId
      ensures id == old(nextId) && nextId == id + 1
    {
      id := nextId;
      nextId := nextId + 1;
    }

    /** `CreateNamespace` in the store. */
    method InsertNamespace(name: string, fails: bool) returns (id: Option<nat>)
      modifies this`namespaces, this`nextId
      ensures fails ==> id.None? && Snapshot() == old(Snapshot())
      ensures !fails ==> id == Some(old(nextId)) && Snapshot() == WithNamespace(old(Snapshot()), name)
    {
      if fails {
        return None;
      }
      var newId := FreshId();
      namespaces := namespaces[newId := name];
      return Some(newId);
    }

    /** `CreateResource`. */
    method InsertResource(row: Resource, fails: bool) returns (id: Option<nat>)
      modifies this`resources, this`nextId
      ensures fails ==> id.None? && Snapshot() == old(Snapshot())
      ensures !fails ==> id == Some(old(nextId)) && Snapshot() == WithResource(old(Snapshot()), row)
    {
      if fails {
        return None;
      }
      var newId := FreshId();
      resources := resources[newId := row];
      return Some(newId);
    }

    /** `CreateEncryptionKey`. */
    method InsertKey(encryptedDek: Bytes, fails: bool) returns (id: Option<nat>)
      modifies this`keys, this`nextId
      ensures fails ==> id.None? && Snapshot() == old(Snapshot())
      ensures !fails ==> id == Some(old(nextId)) && Snapshot() == WithKey(old(Snapshot()), encryptedDek)
    {
      if fails {
        return None;
      }
      var newId := FreshId();
      keys := keys[newId := encryptedDek];
      return Some(newId);
    }

    /** `CreateResourceValue`: read the maximum, set the version, insert, in one transaction. */
    method InsertVersion(resourceId: nat, p: Payload, fails: bool) returns (uuid: Option<nat>)
      modifies this`versions, this`nextId
      ensures fails ==> uuid.None? && Snapshot() == old(Snapshot())
      ensures !fails ==> uuid == Some(old(nextId)) && Snapshot() == AddVersion(old(Snapshot()), resourceId, p)
    {
      if fails {
        return None;
      }
      var max := MaxVersion(versions, resourceId, nextId);
      var newId := FreshId();
      versions := versions[newId := Version(resourceId, max + 1, p.data, p.algorithm, p.keyId)];
      return Some(newId);
    }

    /** The encryption half of a PUT: nothing for cleartext, otherwise seal and store the key. */
    method StorePayload(r: PutRequest, rnd: Randomness, fault: Option<PutStep>) returns (payload: Option<Payload>)
      modifies this`keys, this`nextId
      ensures (Snapshot(), payload) == MakePayload(env, old(Snapshot()), r, rnd, fault)
    {
      var data := r.value;
      var algorithm := Plain;
      var keyId: Option<nat> := None;
      if r.rtype == Encrypted {
        if env.kek.None? || fault == Some(KeyMaterial) {
          return None;
        }
        var sealed := Encrypt(env.cipher, r.value, env.kek.value, rnd);
        if sealed.Err? {
          return None;
        }
        data := sealed.value.data;
        keyId := InsertKey(sealed.value.encryptedDek, fault == Some(KeyInsert));
        if keyId.None? {
          return None;
        }
        algorithm := Aes256Gcm;
      }
      return Some(Payload(data, algorithm, keyId));
    }

    /** `handleResourcePut`. */
    method PutResource(r: PutRequest, allowed: bool, rnd: Randomness, fault: Option<PutStep>) returns (outcome: Outcome)
      modifies this
      ensures (Snapshot(), outcome) == Put(env, old(Snapshot()), r, allowed, rnd, fault)
    {
      hide FindNamespace, MakePayload, AddVersion;
      if r.namespace == "" || r.name == "" {
        return BadRequest;
      }
      if r.namespace == RESERVED {
        return NotFound;
      }
      if r.rtype == Undefined {
        return BadRequest;
      }
      if !allowed {
        return Forbidden;
      }
      var ns := FindNamespace(Snapshot(), r.namespace);
      if ns.None? {
        ns := InsertNamespace(r.namespace, fault == Some(NamespaceInsert));
        if ns.None? {
          return Failed;
        }
      }
      var id := FindResource(Snapshot(), r.namespace, r.name);
      if id.None? {
        id := InsertResource(Resource(ns.value, r.name, r.rtype), fault == Some(ResourceInsert));
        if id.None? {
          return Failed;
        }
      } else if resources[id.value].rtype != r.rtype {
        if fault == Some(TypeUpdate) {
          return Failed;
        }
        resources := resources[id.value := resources[id.value].(rtype := r.rtype)];
      }
      var payload := StorePayload(r, rnd, fault);
      if payload.None? {
        return Failed;
      }
      var uuid := InsertVersion(id.value, payload.value, fault == Some(VersionInsert));
      if uuid.None? {
        return Failed;
      }
      return Stored(uuid.value);
    }

    /** `handleResourceDelete`. */
    method DeleteResource(namespace: string, name: string, allowed: bool, fails: bool) returns (outcome: Outcome)
      modifies this`resources, this`versions
      ensures (Snapshot(), outcome) == Vault.Delete(old(Snapshot()), namespace, name, allowed, fails)
    {
      if namespace == "" || name == "" {
        return BadRequest;
      }
      if namespace == RESERVED {
        return NotFound;
      }
      if !allowed {
        return Forbidden;
      }
      var id := FindResource(Snapshot(), namespace, name);
      if id.None? {
        return NotFound;
      }
      if fails {
        return Failed;
      }
      versions := map u | u in versions && versions[u].resourceId != id.value :: versions[u];
      resources := resources - {id.value};
      return Done;
    }

    /** `NamespaceHandler`, `op=create`. */
    method AddNamespace(name: string, allowed: bool, fails: bool) returns (outcome: Outcome)
      modifies this
      ensures (Snapshot(), outcome) == CreateNamespace(old(Snapshot()), name, allowed, fails)
    {
      if name == "" {
        return BadRequest;
      }
      if name == RESERVED {
        return NotFound;
      }
      if !allowed {
        return Forbidden;
      }
      if FindNamespace(Snapshot(), name).Some? {
        return Conflict;
      }
      var id := InsertNamespace(name, fails);
      return if id.None? then Failed else Done;
    }

    /** `NamespaceHandler`, `op=delete`. */
    method RemoveNamespace(name: string, allowed: bool, fails: bool) returns (outcome: Outcome)
      modifies this`namespaces
      ensures (Snapshot(), outcome) == DeleteNamespace(old(Snapshot()), name, allowed, fails)
    {
      if name == "" {
        return BadRequest;
      }
      if name == RESERVED {
        return NotFound;
      }
      if !allowed {
        return Forbidden;
      }
      if HasResources(Snapshot(), name) {
        return Conflict;
      }
      if fails {
        return Failed;
      }
      namespaces := map id | id in namespaces && namespaces[id] != name :: namespaces[id];
      return Done;
    }

    /** `decryptValue`: replaces the data of the row in hand by its plaintext. */
    method DecryptValue(v: Version) returns (plain: Result<Version>)
      ensures plain ==
              (var value := Reveal(env, Snapshot(), v); if value.Err? then Err else Ok(v.(data := value.value)))
    {
      if v.algorithm == Plain {
        return Ok(v);
      }
      if v.keyId.None? || v.keyId.value !in keys {
        return Err;
      }
      if env.kek.None? {
        return Err;
      }
      var dek := OpenGCM(env.cipher, keys[v.keyId.value], env.kek.value);
      if dek.Err? {
        return Err;
      }
      var data := OpenGCM(env.cipher, v.data, dek.value);
      if data.Err? {
        return Err;
      }
      return Ok(v.(data := data.value));
    }

    /** `handleGetResource`. */
    method GetResource(namespace: string, name: string, which: Selector, allowed: bool) returns (answer: Answer)
      ensures answer == Get(env, Snapshot(), namespace, name, which, allowed)
    {
      hide Reveal, MaxVersion;
      if namespace == RESERVED {
        return Refused(NotFound);
      }
      if !allowed {
        return Refused(Forbidden);
      }
      var id := FindResource(Snapshot(), namespace, name);
      if id.None? {
        return Refused(NotFound);
      }
      var uuid: Option<nat>;
      match which {
        case Latest =>
          uuid := LatestVersion(Snapshot(), id.value);
          if uuid.None? {
            return NoValueYet;
          }
        case Uuid(u) => uuid := if u in versions then Some(u) else None;
        case Number(n) => uuid := FindVersion(Snapshot(), id.value, n);
        case Malformed => return Refused(BadRequest);
      }
      if uuid.None? {
        return Refused(NotFound);
      }
      var rv := DecryptValue(versions[uuid.value]);
      return if rv.Err? then Refused(Failed) else Value(rv.value.data);
    }

    /** `ListNamespaces` in the store: the name column, in id order. In every sound state it
        has no duplicates, which is what the namespace listing relies on. */
    method NamespaceNames() returns (names: seq<string>)
      requires NamespacesSound(Snapshot())
      ensures Authz.NoDuplicates(names)
      ensures forall name :: name in names <==> exists id <- namespaces :: namespaces[id] == name
    {
      names := [];
      ghost var ids: seq<nat> := [];
      for i := 0 to nextId
        invariant |ids| == |names|
        invariant forall k :: 0 <= k < |ids| ==> ids[k] < i && ids[k] in namespaces && namespaces[ids[k]] == names[k]
        invariant forall id :: 0 <= id < i && id in namespaces ==> namespaces[id] in names
        invariant Authz.NoDuplicates(names)
      {
        if i in namespaces {
          assert namespaces[i] !in names;
          names := names + [namespaces[i]];
          ids := ids + [i];
        }
      }
      assert forall name <- names :: exists k :: 0 <= k < |ids| && namespaces[ids[k]] == name;
    }

    /** `NamespaceHandler`, `op=list`: each namespace once, `_` never, with exactly the verbs
        owed; a caller with `_/ns` list sees every stored namespace as well. */
    method ListNamespaces(own: Option<seq<Authz.Permission>>, anon: seq<Authz.AnonPermission>, now: Authz.Time)
      returns (result: seq<Authz.NamespaceEntry>)
      requires NamespacesSound(Snapshot())
      ensures Authz.NamesOnce(result)
      ensures forall e <- result :: e.namespace != Authz.META_NS && Authz.NoDuplicates(e.verbs)
      ensures forall e <- result, v :: v in e.verbs <==> Authz.Owed(own, anon, e.namespace, v, now)
      ensures forall ns :: Authz.HasEntry(result, ns) <==>
                || Authz.Patterned(Authz.Held(own), anon, ns, now)
                || (Authz.HasMetaNS(own, Authz.List, now) && exists id <- namespaces :: namespaces[id] == ns)
    {
      hide Authz.Owed, Authz.Patterned, Authz.HasMetaNS, Authz.HasEntry;
      var stored := NamespaceNames();
      result := Authz.ListNamespaces(own, anon, stored, now);
    }
  }
}
