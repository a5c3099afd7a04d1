/** What each request of the resource store stores and answers, exactly, and who may make it
    (internal/api/resource.go). */
module VaultOutcomes {
  import opened Strings
  import opened Crypto
  import opened Vault
  import opened VaultIntegrity
  import opened VaultHistory
  import opened VaultReading
  import Authz

  // -------------------------------------------------------------------- what a PUT stores

  /** The row of a clear value: the value itself, and no key. */
  predicate StoredInClear(v: Version, r: PutRequest) {
    v.algorithm == Plain && v.keyId == None && v.data == r.value
  }

  /** The row of a sealed value: a new key row holds the drawn data key sealed under the KEK, and
      the row holds the value sealed under the data key. */
  ghost predicate StoredSealed(env: Env, t: Tables, t': Tables, v: Version, r: PutRequest, rnd: Randomness) {
    && env.kek.Some? && v.algorithm == Aes256Gcm && v.keyId.Some?
    && v.keyId.value !in t.keys && v.keyId.value in t'.keys
    && var c := env.cipher;
       && t'.keys[v.keyId.value] == c.encode(rnd.keyNonce + c.seal(env.kek.value, rnd.keyNonce, rnd.dek))
       && v.data == c.encode(rnd.dataNonce + c.seal(rnd.dek, rnd.dataNonce, r.value))
       && OpenGCM(c, t'.keys[v.keyId.value], env.kek.value) == Ok(rnd.dek)
       && OpenGCM(c, v.data, rnd.dek) == Ok(r.value)
  }

  lemma KeysBelow(t: Tables)
    requires Integrity(t)
    ensures t.nextId !in t.keys && t.nextId !in t.versions && t.nextId !in t.resources && t.nextId !in t.namespaces
  {}

  lemma EncryptSeals(c: Cipher, value: Bytes, kek: Key, rnd: Randomness)
    ensures Encrypt(c, value, kek, rnd) ==
            Ok(Envelope(c.encode(rnd.dataNonce + c.seal(rnd.dek, rnd.dataNonce, value)),
                        c.encode(rnd.keyNonce + c.seal(kek, rnd.keyNonce, rnd.dek))))
    ensures OpenGCM(c, Encrypt(c, value, kek, rnd).value.encryptedDek, kek) == Ok(rnd.dek)
    ensures OpenGCM(c, Encrypt(c, value, kek, rnd).value.data, rnd.dek) == Ok(value)
  {
    OpenUndoesSeal(c, value, rnd.dek, rnd.dataNonce);
    OpenUndoesSeal(c, rnd.dek, kek, rnd.keyNonce);
  }

  /** The payload of a PUT, and exactly when there is one. */
  lemma PayloadExactly(env: Env, t: Tables, r: PutRequest, rnd: Randomness, fault: Option<PutStep>)
    requires Integrity(t)
    ensures var (t', p) := MakePayload(env, t, r, rnd, fault);
            && (p.Some? <==>
                  (r.rtype == Encrypted ==> env.kek.Some? && fault != Some(KeyMaterial) && fault != Some(KeyInsert)))
            && (p.Some? ==>
                  var v := Version(0, 0, p.value.data, p.value.algorithm, p.value.keyId);
                  if r.rtype == Encrypted then StoredSealed(env, t, t', v, r, rnd) else StoredInClear(v, r))
            && (forall k <- t.keys :: k in t'.keys)
            && t' == t.(keys := t'.keys, nextId := t'.nextId) && t.nextId <= t'.nextId
  {
    hide Encrypt, OpenGCM, Integrity;
    KeysBelow(t);
    if env.kek.Some? { EncryptSeals(env.cipher, r.value, env.kek.value, rnd); }
  }

  /** Getting the resource's row leaves it with the type asked for. */
  lemma EnsuredResource(t: Tables, namespaceId: nat, r: PutRequest, fault: Option<PutStep>)
    requires Integrity(t) && namespaceId in t.namespaces && t.namespaces[namespaceId] == r.namespace
    ensures var (t', id) := EnsureResource(t, namespaceId, r, fault);
            && (id.Some? ==> id.value in t'.resources && KeyOf(t', id.value) == (r.namespace, r.name)
                             && t'.resources[id.value].rtype == r.rtype)
            && (id.Some? <==>
                  && (fault == Some(ResourceInsert) ==> Exists(t, (r.namespace, r.name)))
                  && (fault == Some(TypeUpdate) ==> !ExistsAs(t, (r.namespace, r.name), r.rtype)))
            && t' == t.(resources := t'.resources, nextId := t'.nextId)
  {
    hide Integrity, FindResource;
    FoundResource(t, r.namespace, r.name);
    match FindResource(t, r.namespace, r.name)
    case Some(id) => ExistsHere(t, id, r.rtype);
    case None =>
  }

  ghost predicate Exists(t: Tables, key: ResourceKey) {
    exists id <- t.resources :: KeyOf(t, id) == key
  }

  /** The resource exists with another type than this. */
  ghost predicate ExistsAs(t: Tables, key: ResourceKey, other: ResourceType) {
    exists id <- t.resources :: KeyOf(t, id) == key && t.resources[id].rtype != other
  }

  lemma ExistsHere(t: Tables, id: nat, rtype: ResourceType)
    requires Integrity(t) && id in t.resources
    ensures Exists(t, KeyOf(t, id)) && (ExistsAs(t, KeyOf(t, id), rtype) <==> t.resources[id].rtype != rtype)
  {
    hide Integrity, KeyOf;
    if other :| other in t.resources && KeyOf(t, other) == KeyOf(t, id) && t.resources[other].rtype != rtype {
      KeyIsUnique(t, other, id);
    }
  }

  ghost predicate NamespaceExists(t: Tables, name: string) {
    exists id <- t.namespaces :: t.namespaces[id] == name
  }

  lemma FoundNamespace(t: Tables, name: string)
    requires Integrity(t)
    ensures FindNamespace(t, name).Some? <==> NamespaceExists(t, name)
    ensures FindNamespace(t, name).Some? ==>
              var id := FindNamespace(t, name).value; id in t.namespaces && t.namespaces[id] == name
  {}

  /** Getting the namespace's row; a new namespace has no resource. */
  lemma EnsuredNamespace(t: Tables, key: ResourceKey, other: ResourceType, fault: Option<PutStep>)
    requires Integrity(t) && key.0 != RESERVED
    ensures var (t', id) := EnsureNamespace(t, key.0, fault);
            && Integrity(t')
            && (id.Some? ==> id.value in t'.namespaces && t'.namespaces[id.value] == key.0)
            && (id.Some? <==> (fault == Some(NamespaceInsert) ==> NamespaceExists(t, key.0)))
            && (Exists(t', key) <==> Exists(t, key)) && (ExistsAs(t', key, other) <==> ExistsAs(t, key, other))
            && t' == t.(namespaces := t'.namespaces, nextId := t'.nextId)
  {
    hide Integrity, FindNamespace, KeyOf;
    FoundNamespace(t, key.0);
    if FindNamespace(t, key.0).None? {
      WithNamespaceSound(t, key.0);
      assert forall id <- t.resources :: KeyOf(WithNamespace(t, key.0), id) == KeyOf(t, id);
    }
  }

  lemma EnsuredResourceSound(env: Env, t: Tables, namespaceId: nat, r: PutRequest, fault: Option<PutStep>)
    requires Integrity(t) && namespaceId in t.namespaces && t.namespaces[namespaceId] == r.namespace
    ensures Integrity(EnsureResource(t, namespaceId, r, fault).0)
  {
    hide Integrity, FindResource;
    FoundResource(t, r.namespace, r.name);
    match FindResource(t, r.namespace, r.name)
    case None => NewResourceSound(t, Resource(namespaceId, r.name, r.rtype));
    case Some(id) => RetypedResourceSound(t, id, r.rtype);
  }

  /** Nothing but the given fault, at a step this PUT takes, or a missing KEK stands in its way. */
  ghost predicate PutGoesThrough(env: Env, t: Tables, r: PutRequest, fault: Option<PutStep>) {
    var key := (r.namespace, r.name);
    && (fault == Some(NamespaceInsert) ==> NamespaceExists(t, r.namespace))
    && (fault == Some(ResourceInsert) ==> Exists(t, key))
    && (fault == Some(TypeUpdate) ==> !ExistsAs(t, key, r.rtype))
    && (r.rtype == Encrypted ==> env.kek.Some? && fault != Some(KeyMaterial) && fault != Some(KeyInsert))
    && fault != Some(VersionInsert)
  }

  /** What a PUT answers, exactly: in particular an encrypted one without a KEK fails. */
  lemma PutAnswers(env: Env, t: Tables, r: PutRequest, allowed: bool, rnd: Randomness, fault: Option<PutStep>)
    requires Integrity(t)
    ensures var outcome := Put(env, t, r, allowed, rnd, fault).1;
            if r.namespace == "" || r.name == "" then outcome == BadRequest
            else if r.namespace == "_" then outcome == NotFound
            else if r.rtype == Undefined then outcome == BadRequest
            else if !allowed then outcome == Forbidden
            else if PutGoesThrough(env, t, r, fault) then outcome.Stored?
            else outcome == Failed
  {
    hide Integrity, EnsureNamespace, EnsureResource, MakePayload, AddVersion, Exists, ExistsAs, NamespaceExists,
         StoredSealed, StoredInClear, KeyOf;
    if PutRefusal(r, allowed).None? {
      var (t1, ns) := EnsureNamespace(t, r.namespace, fault);
      EnsuredNamespace(t, (r.namespace, r.name), r.rtype, fault);
      if ns.Some? {
        var (t2, id) := EnsureResource(t1, ns.value, r, fault);
        EnsuredResource(t1, ns.value, r, fault);
        EnsuredResourceSound(env, t1, ns.value, r, fault);
        if id.Some? {
          PayloadExactly(env, t2, r, rnd, fault);
          assert fault == Some(NamespaceInsert) ==> NamespaceExists(t, r.namespace);
          assert fault == Some(ResourceInsert) ==> Exists(t, (r.namespace, r.name));
          assert fault == Some(TypeUpdate) ==> !ExistsAs(t, (r.namespace, r.name), r.rtype);
          assert MakePayload(env, t2, r, rnd, fault).1.Some? ==> r.rtype == Encrypted ==> env.kek.Some?;
        }
      }
    }
  }

  /** What a PUT that is answered `Stored` has stored: one new version row of the resource, which now
      has the type asked for; sealed under a new key if that type is encrypted, clear if not. */
  lemma PutStores(env: Env, t: Tables, r: PutRequest, allowed: bool, rnd: Randomness, fault: Option<PutStep>)
    requires Integrity(t) && Put(env, t, r, allowed, rnd, fault).1.Stored?
    ensures var (t', outcome) := Put(env, t, r, allowed, rnd, fault);
            && outcome.uuid !in t.versions && outcome.uuid in t'.versions
            && (forall u <- t'.versions :: u == outcome.uuid || u in t.versions)
            && var v := t'.versions[outcome.uuid];
               && KeyOf(t', v.resourceId) == (r.namespace, r.name)
               && v.resourceId in t'.resources && t'.resources[v.resourceId].rtype == r.rtype
               && (r.rtype == Encrypted ==> StoredSealed(env, t, t', v, r, rnd))
               && (r.rtype == Cleartext ==> StoredInClear(v, r))
  {
    hide Integrity, EnsureNamespace, EnsureResource, MakePayload, MaxVersion, Exists, ExistsAs, NamespaceExists,
         OpenGCM;
    var (t1, ns) := EnsureNamespace(t, r.namespace, fault);
    EnsuredNamespace(t, (r.namespace, r.name), r.rtype, fault);
    var (t2, id) := EnsureResource(t1, ns.value, r, fault);
    EnsuredResource(t1, ns.value, r, fault);
    EnsuredResourceSound(env, t1, ns.value, r, fault);
    PayloadExactly(env, t2, r, rnd, fault);
    KeysBelow(t2);
    VersionsBelow(t2, MakePayload(env, t2, r, rnd, fault).0);
  }

  lemma VersionsBelow(t: Tables, t': Tables)
    requires Integrity(t) && t.nextId <= t'.nextId && t'.versions == t.versions
    ensures t'.nextId !in t.versions
  {}

  // ------------------------------------------------------------------- the other requests

  /** What a DELETE answers, exactly, and what it leaves when it is done: everything but the
      resource and its versions. */
  lemma DeleteAnswers(t: Tables, key: ResourceKey, allowed: bool, fault: bool)
    requires Integrity(t)
    ensures var (t', outcome) := Delete(t, key.0, key.1, allowed, fault);
            && (if key.0 == "" || key.1 == "" then outcome == BadRequest
                else if key.0 == "_" then outcome == NotFound
                else if !allowed then outcome == Forbidden
                else if !Exists(t, key) then outcome == NotFound
                else outcome == if fault then Failed else Done)
            && (if outcome == Done then Removed(t, t', key) else t' == t)
  {
    hide Integrity, FindResource;
    FoundResource(t, key.0, key.1);
    var id := FindResource(t, key.0, key.1);
    if id.Some? { RemovesOne(t, id.value); }
  }

  /** The resource and its versions are gone, and nothing else is. */
  ghost predicate Removed(t: Tables, t': Tables, key: ResourceKey) {
    && t' == t.(resources := t'.resources, versions := t'.versions)
    && !Exists(t', key)
    && (forall id <- t'.resources :: id in t.resources && t'.resources[id] == t.resources[id])
    && (forall id <- t.resources :: KeyOf(t, id) != key ==> id in t'.resources)
    && (forall u <- t'.versions :: u in t.versions && t'.versions[u] == t.versions[u] && OwnerOf(t, u) != key)
    && (forall u <- t.versions :: OwnerOf(t, u) != key ==> u in t'.versions)
  }

  lemma RemovesOne(t: Tables, id: nat)
    requires Integrity(t) && id in t.resources
    ensures Removed(t, RemoveResource(t, id), KeyOf(t, id))
  {
    hide Integrity;
    var t', key := RemoveResource(t, id), KeyOf(t, id);
    forall other | other in t.resources ensures KeyOf(t', other) == if other == id then ("", "") else KeyOf(t, other) {}
    forall other | other in t.resources ensures KeyOf(t, other) == key <==> other == id { KeyIsUnique(t, other, id); }
    forall u | u in t.versions ensures OwnerOf(t, u) == key <==> t.versions[u].resourceId == id {
      VersionHasResource(t, u);
    }
  }

  /** What creating a namespace answers and leaves. */
  lemma CreateNamespaceAnswers(t: Tables, name: string, allowed: bool, fault: bool)
    requires Integrity(t)
    ensures var (t', outcome) := CreateNamespace(t, name, allowed, fault);
            && outcome == (if name == "" then BadRequest
                           else if name == "_" then NotFound
                           else if !allowed then Forbidden
                           else if NamespaceExists(t, name) then Conflict
                           else if fault then Failed
                           else Done)
            && (outcome != Done ==> t' == t)
            && (outcome == Done ==>
                NamespaceExists(t', name) && t' == t.(namespaces := t'.namespaces, nextId := t'.nextId))
            && (forall other :: other != name ==> (NamespaceExists(t', other) <==> NamespaceExists(t, other)))
  {
    hide Integrity, FindNamespace;
    FoundNamespace(t, name);
    KeysBelow(t);
    var t' := WithNamespace(t, name);
    assert t'.namespaces[t.nextId] == name;
    assert forall id <- t.namespaces :: id in t'.namespaces && t'.namespaces[id] == t.namespaces[id];
  }

  /** What deleting one answers and leaves: it is refused exactly while a resource is in it. */
  lemma DeleteNamespaceAnswers(t: Tables, name: string, allowed: bool, fault: bool)
    requires Integrity(t)
    ensures var (t', outcome) := DeleteNamespace(t, name, allowed, fault);
            && outcome == (if name == "" then BadRequest
                           else if name == "_" then NotFound
                           else if !allowed then Forbidden
                           else if exists id <- t.resources :: KeyOf(t, id).0 == name then Conflict
                           else if fault then Failed
                           else Done)
            && (outcome != Done ==> t' == t)
            && (outcome == Done ==> !NamespaceExists(t', name) && t' == t.(namespaces := t'.namespaces))
            && (forall other :: other != name ==> (NamespaceExists(t', other) <==> NamespaceExists(t, other)))
  {
    assert name != "" ==> (HasResources(t, name) <==> exists id <- t.resources :: KeyOf(t, id).0 == name);
    hide Integrity, HasResources, KeyOf;
    var t' := WithoutNamespace(t, name);
    assert forall id <- t.namespaces :: t.namespaces[id] != name ==> id in t'.namespaces;
  }

  // -------------------------------------------------------------------- who may change what

  /** The request with the access decision its handler makes. */
  function Decided(who: Reader, op: Op): Op {
    match op
    case PutOp(r, _, rnd, fault) => PutOp(r, Passes(who, Authz.Write, (r.namespace, r.name)), rnd, fault)
    case DeleteOp(namespace, name, _, failed) =>
      DeleteOp(namespace, name, Passes(who, Authz.Delete, (namespace, name)), failed)
    case CreateNamespaceOp(name, _, failed) =>
      CreateNamespaceOp(name, Authz.HasMetaNS(Some(who.own), Authz.Write, who.now), failed)
    case DeleteNamespaceOp(name, _, failed) =>
      DeleteNamespaceOp(name, Authz.HasMetaNS(Some(who.own), Authz.Delete, who.now), failed)
  }

  /** The verb `_/ns` must be granted with. */
  lemma NamespaceRights(who: Reader, verb: Authz.Verb)
    ensures Authz.HasMetaNS(Some(who.own), verb, who.now) <==> Authz.AnyGrants(who.own, verb, "_/ns", who.now)
  {
    Authz.MetaVerbsExactly(Some(who.own), verb, who.now);
  }

  /** What the caller of each kind of request must hold, in the permissions' own terms. */
  ghost predicate Authorised(who: Reader, op: Op) {
    match op
    case PutOp(r, _, _, _) => Holds(who, Authz.Write, r.namespace + "/" + r.name)
    case DeleteOp(namespace, name, _, _) => Holds(who, Authz.Delete, namespace + "/" + name)
    case CreateNamespaceOp(_, _, _) => Authz.AnyGrants(who.own, Authz.Write, "_/ns", who.now)
    case DeleteNamespaceOp(_, _, _) => Authz.AnyGrants(who.own, Authz.Delete, "_/ns", who.now)
  }

  lemma DecidedIsAuthorised(who: Reader, op: Op)
    ensures Decided(who, op).allowed <==> Authorised(who, op)
  {
    hide Passes, Holds, Authz.HasMetaNS, Authz.AnyGrants;
    match op
    case PutOp(r, _, _, _) => PassesExactly(who, Authz.Write, (r.namespace, r.name));
    case DeleteOp(namespace, name, _, _) => PassesExactly(who, Authz.Delete, (namespace, name));
    case CreateNamespaceOp(_, _, _) => NamespaceRights(who, Authz.Write);
    case DeleteNamespaceOp(_, _, _) => NamespaceRights(who, Authz.Delete);
  }

  /** A request that is not authorised changes nothing, and an authorised one is never forbidden. */
  lemma OnlyAuthorisedChange(env: Env, t: Tables, who: Reader, op: Op)
    requires Integrity(t)
    ensures var (t', outcome) := Step(env, t, Decided(who, op));
            && (!Authorised(who, op) ==> t' == t && !outcome.Stored? && outcome != Done)
            && (Authorised(who, op) ==> outcome != Forbidden)
  {
    hide Integrity, Authorised, Passes, Authz.HasMetaNS, PutGoesThrough, Exists, NamespaceExists, Removed, KeyOf;
    DecidedIsAuthorised(who, op);
    match Decided(who, op)
    case PutOp(r, allowed, rnd, fault) => PutAnswers(env, t, r, allowed, rnd, fault);
    case DeleteOp(namespace, name, allowed, failed) => DeleteAnswers(t, (namespace, name), allowed, failed);
    case CreateNamespaceOp(name, allowed, failed) => CreateNamespaceAnswers(t, name, allowed, failed);
    case DeleteNamespaceOp(name, allowed, failed) => DeleteNamespaceAnswers(t, name, allowed, failed);
  }

  /** Read off the tables: whoever adds a version was granted Write on its resource, and whoever
      removes one was granted Delete on it. */
  lemma ChangesNeedVerbs(env: Env, t: Tables, who: Reader, op: Op, u: nat)
    requires Integrity(t)
    ensures var t' := Step(env, t, Decided(who, op)).0;
            && (u in t'.versions && u !in t.versions ==> Holds(who, Authz.Write, PathOf(OwnerOf(t', u))))
            && (u in t.versions && u !in t'.versions ==> Holds(who, Authz.Delete, PathOf(OwnerOf(t, u))))
  {
    hide Integrity, Holds, Passes, Authz.HasMetaNS, Authz.AnyGrants, Put, Delete, CreateNamespace, DeleteNamespace,
         Exists, NamespaceExists, KeyOf, StoredSealed, StoredInClear;
    OnlyAuthorisedChange(env, t, who, op);
    var (t', outcome) := Step(env, t, Decided(who, op));
    match Decided(who, op)
    case PutOp(r, allowed, rnd, fault) =>
      if outcome.Stored? { PutStores(env, t, r, allowed, rnd, fault); }
      PutRemovesNothing(env, t, Decided(who, op));
    case DeleteOp(namespace, name, allowed, failed) => DeleteAnswers(t, (namespace, name), allowed, failed);
    case CreateNamespaceOp(name, allowed, failed) => CreateNamespaceAnswers(t, name, allowed, failed);
    case DeleteNamespaceOp(name, allowed, failed) => DeleteNamespaceAnswers(t, name, allowed, failed);
  }

  function PathOf(key: ResourceKey): string {
    key.0 + "/" + key.1
  }

  lemma PutRemovesNothing(env: Env, t: Tables, op: Op)
    requires Integrity(t) && op.PutOp?
    ensures var (t', outcome) := Step(env, t, op);
            (forall u <- t.versions :: u in t'.versions) && (!outcome.Stored? ==> t'.versions == t.versions)
  {
    hide FindNamespace, FindResource, MaxVersion, Encrypt, Integrity;
    PutGrows(env, t, op);
    VersionsUnder(t);
  }

  lemma VersionsUnder(t: Tables)
    requires Integrity(t)
    ensures forall u <- t.versions :: u < t.nextId
  {}
}
