/** The versioned, envelope-encrypted resource store: its tables and what each request does
    to them (internal/api/resource.go, internal/store/namespace.go, internal/store/resource.go,
    internal/store/resource_value.go, internal/store/encryption_key.go). */
module Vault {
  import opened Strings
  import opened Crypto
  import opened Rows

  datatype ResourceType = Undefined | Cleartext | Encrypted
  datatype Algorithm = Plain | Aes256Gcm

  datatype Resource = Resource(namespaceId: nat, name: string, rtype: ResourceType)

  datatype Version = Version(resourceId: nat, number: nat, data: Bytes, algorithm: Algorithm, keyId: Option<nat>)

  /** One counter hands out every row id and version uuid, so none is ever reused. */
  datatype Tables = Tables(
    namespaces: map<nat, string>,
    resources: map<nat, Resource>,
    keys: map<nat, Bytes>,
    versions: map<nat, Version>,
    nextId: nat)

  const EMPTY := Tables(map[], map[], map[], map[], 0)

  /** What stays fixed over a run: the primitives and the key-encryption key, if one is set. */
  datatype Env = Env(cipher: Cipher, kek: Option<Key>)

  const RESERVED := "_"

  // ---------------------------------------------------------------------- queries

  function FindNamespace(t: Tables, name: string): Option<nat> {
    First(t.namespaces, (n: string) => n == name, 0, t.nextId)
  }

  predicate Located(t: Tables, r: Resource, namespace: string) {
    r.namespaceId in t.namespaces && t.namespaces[r.namespaceId] == namespace
  }

  function FindResource(t: Tables, namespace: string, name: string): Option<nat> {
    First(t.resources, (r: Resource) => Located(t, r, namespace) && r.name == name, 0, t.nextId)
  }

  /** `ListResources` finds something. */
  predicate HasResources(t: Tables, namespace: string) {
    exists id <- t.resources :: Located(t, t.resources[id], namespace)
  }

  function FindVersion(t: Tables, resourceId: nat, number: nat): Option<nat> {
    First(t.versions, (v: Version) => v.resourceId == resourceId && v.number == number, 0, t.nextId)
  }

  /** `COALESCE(MAX(version), 0)` over the rows of one resource. */
  function MaxVersion(versions: map<nat, Version>, resourceId: nat, hi: nat): (m: nat)
    ensures forall u :: 0 <= u < hi && u in versions && versions[u].resourceId == resourceId ==> versions[u].number <= m
    ensures m == 0 || exists u ::
              0 <= u < hi && u in versions && versions[u].resourceId == resourceId && versions[u].number == m
  {
    if hi == 0 then 0
    else
      var m := MaxVersion(versions, resourceId, hi - 1);
      var u := hi - 1;
      if u in versions && versions[u].resourceId == resourceId && versions[u].number > m then versions[u].number else m
  }

  // ---------------------------------------------------------------------- requests

  datatype Outcome = BadRequest | NotFound | Forbidden | Conflict | Failed | Done | Stored(uuid: nat)

  /** The points at which a PUT can fail; those of a write leave that write undone. */
  datatype PutStep = NamespaceInsert | ResourceInsert | TypeUpdate | KeyMaterial | KeyInsert | VersionInsert

  datatype PutRequest = PutRequest(namespace: string, name: string, rtype: ResourceType, value: Bytes)

  datatype Payload = Payload(data: Bytes, algorithm: Algorithm, keyId: Option<nat>)

  function WithNamespace(t: Tables, name: string): Tables {
    t.(namespaces := t.namespaces[t.nextId := name], nextId := t.nextId + 1)
  }

  function WithoutNamespace(t: Tables, name: string): Tables {
    t.(namespaces := map id | id in t.namespaces && t.namespaces[id] != name :: t.namespaces[id])
  }

  function WithResource(t: Tables, r: Resource): Tables {
    t.(resources := t.resources[t.nextId := r], nextId := t.nextId + 1)
  }

  function Retyped(t: Tables, id: nat, rtype: ResourceType): Tables
    requires id in t.resources
  {
    t.(resources := t.resources[id := t.resources[id].(rtype := rtype)])
  }

  function WithKey(t: Tables, encryptedDek: Bytes): Tables {
    t.(keys := t.keys[t.nextId := encryptedDek], nextId := t.nextId + 1)
  }

  function EnsureNamespace(t: Tables, name: string, fault: Option<PutStep>): (Tables, Option<nat>) {
    match FindNamespace(t, name)
    case Some(id) => (t, Some(id))
    case None =>
      if fault == Some(NamespaceInsert) then (t, None)
      else (WithNamespace(t, name), Some(t.nextId))
  }

  function EnsureResource(t: Tables, namespaceId: nat, r: PutRequest, fault: Option<PutStep>): (Tables, Option<nat>) {
    match FindResource(t, r.namespace, r.name)
    case None =>
      if fault == Some(ResourceInsert) then (t, None)
      else (WithResource(t, Resource(namespaceId, r.name, r.rtype)), Some(t.nextId))
    case Some(id) =>
      if t.resources[id].rtype == r.rtype then (t, Some(id))
      else if fault == Some(TypeUpdate) then (t, None)
      else (Retyped(t, id, r.rtype), Some(id))
  }

  function MakePayload(env: Env, t: Tables, r: PutRequest, rnd: Randomness, fault: Option<PutStep>)
    : (Tables, Option<Payload>)
  {
    if r.rtype != Encrypted then (t, Some(Payload(r.value, Plain, None)))
    else if env.kek.None? || fault == Some(KeyMaterial) then (t, None)
    else
      var e := Encrypt(env.cipher, r.value, env.kek.value, rnd);
      if e.Err? || fault == Some(KeyInsert) then (t, None)
      else (WithKey(t, e.value.encryptedDek), Some(Payload(e.value.data, Aes256Gcm, Some(t.nextId))))
  }

  /** `CreateResourceValue`: one transaction that reads the maximum and inserts its successor. */
  function AddVersion(t: Tables, resourceId: nat, p: Payload): Tables {
    var number := MaxVersion(t.versions, resourceId, t.nextId) + 1;
    var row := Version(resourceId, number, p.data, p.algorithm, p.keyId);
    t.(versions := t.versions[t.nextId := row], nextId := t.nextId + 1)
  }

  /** What `handleResourcePut` refuses before touching the tables. */
  function PutRefusal(r: PutRequest, allowed: bool): Option<Outcome> {
    if r.namespace == "" || r.name == "" then Some(BadRequest)
    else if r.namespace == RESERVED then Some(NotFound)
    else if r.rtype == Undefined then Some(BadRequest)
    else if !allowed then Some(Forbidden)
    else None
  }

  function Put(env: Env, t: Tables, r: PutRequest, allowed: bool, rnd: Randomness, fault: Option<PutStep>)
    : (Tables, Outcome)
  {
    if PutRefusal(r, allowed).Some? then (t, PutRefusal(r, allowed).value)
    else
      var (t1, ns) := EnsureNamespace(t, r.namespace, fault);
      if ns.None? then (t1, Failed)
      else
        var (t2, id) := EnsureResource(t1, ns.value, r, fault);
        if id.None? then (t2, Failed)
        else
          var (t3, payload) := MakePayload(env, t2, r, rnd, fault);
          if payload.None? || fault == Some(VersionInsert) then (t3, Failed)
          else (AddVersion(t3, id.value, payload.value), Stored(t3.nextId))
  }

  /** `DeleteResource`: the row and, with it, all its versions; keys stay. */
  function RemoveResource(t: Tables, id: nat): Tables {
    t.(resources := t.resources - {id},
       versions := map u | u in t.versions && t.versions[u].resourceId != id :: t.versions[u])
  }

  function Delete(t: Tables, namespace: string, name: string, allowed: bool, fault: bool): (Tables, Outcome) {
    if namespace == "" || name == "" then (t, BadRequest)
    else if namespace == RESERVED then (t, NotFound)
    else if !allowed then (t, Forbidden)
    else
      match FindResource(t, namespace, name)
      case None => (t, NotFound)
      case Some(id) => if fault then (t, Failed) else (RemoveResource(t, id), Done)
  }

  function CreateNamespace(t: Tables, name: string, allowed: bool, fault: bool): (Tables, Outcome) {
    if name == "" then (t, BadRequest)
    else if name == RESERVED then (t, NotFound)
    else if !allowed then (t, Forbidden)
    else if FindNamespace(t, name).Some? then (t, Conflict)
    else if fault then (t, Failed)
    else (WithNamespace(t, name), Done)
  }

  /** Deletes every row of that name; a missing one is not an error. */
  function DeleteNamespace(t: Tables, name: string, allowed: bool, fault: bool): (Tables, Outcome) {
    if name == "" then (t, BadRequest)
    else if name == RESERVED then (t, NotFound)
    else if !allowed then (t, Forbidden)
    else if HasResources(t, name) then (t, Conflict)
    else if fault then (t, Failed)
    else (WithoutNamespace(t, name), Done)
  }

  // ------------------------------------------------------------------------- reads

  /** `decryptValue`: driven by the version's own algorithm and key, not the resource's type. */
  function Reveal(env: Env, t: Tables, v: Version): Result<Bytes> {
    if v.algorithm == Plain then Ok(v.data)
    else if v.keyId.None? || v.keyId.value !in t.keys || env.kek.None? then Err
    else Decrypt(env.cipher, Envelope(v.data, t.keys[v.keyId.value]), env.kek.value)
  }

  /** The `version` field of a query, once parsed. */
  datatype Selector = Latest | Uuid(uuid: nat) | Number(number: nat) | Malformed

  datatype Answer = Value(value: Bytes) | NoValueYet | Refused(why: Outcome)

  function Show(env: Env, t: Tables, uuid: Option<nat>): Answer
    requires uuid.Some? ==> uuid.value in t.versions
  {
    if uuid.None? then Refused(NotFound)
    else
      var plain := Reveal(env, t, t.versions[uuid.value]);
      if plain.Ok? then Value(plain.value) else Refused(Failed)
  }

  /** `handleGetByUUID`; `allowed` is the access decision on the resource the version belongs to. */
  function GetByUuid(env: Env, t: Tables, uuid: nat, allowed: bool): Answer {
    if uuid !in t.versions then Refused(NotFound)
    else if t.versions[uuid].resourceId !in t.resources then Refused(Failed)
    else if !allowed then Refused(NotFound)
    else Show(env, t, Some(uuid))
  }

  function LatestVersion(t: Tables, resourceId: nat): Option<nat> {
    FindVersion(t, resourceId, MaxVersion(t.versions, resourceId, t.nextId))
  }

  /** The row a query for a resource selects. A uuid is looked up alone, whatever resource its
      row belongs to, as the code does. */
  function Selected(t: Tables, resourceId: nat, which: Selector): (u: Option<nat>)
    ensures u.Some? ==> u.value in t.versions
  {
    match which
    case Latest => LatestVersion(t, resourceId)
    case Uuid(u) => if u in t.versions then Some(u) else None
    case Number(n) => FindVersion(t, resourceId, n)
    case Malformed => None
  }

  /** `handleGetResource`; `allowed` is the access decision on the resource named. */
  function Get(env: Env, t: Tables, namespace: string, name: string, which: Selector, allowed: bool): Answer {
    if namespace == RESERVED then Refused(NotFound)
    else if !allowed then Refused(Forbidden)
    else
      match FindResource(t, namespace, name)
      case None => Refused(NotFound)
      case Some(id) =>
        if which.Malformed? then Refused(BadRequest)
        else if which.Latest? && Selected(t, id, which).None? then NoValueYet
        else Show(env, t, Selected(t, id, which))
  }

  // -------------------------------------------------------------------------- runs

  datatype Op =
    | PutOp(r: PutRequest, allowed: bool, rnd: Randomness, fault: Option<PutStep>)
    | DeleteOp(namespace: string, name: string, allowed: bool, failed: bool)
    | CreateNamespaceOp(namespace: string, allowed: bool, failed: bool)
    | DeleteNamespaceOp(namespace: string, allowed: bool, failed: bool)

  function Step(env: Env, t: Tables, op: Op): (Tables, Outcome) {
    match op
    case PutOp(r, allowed, rnd, fault) => Put(env, t, r, allowed, rnd, fault)
    case DeleteOp(namespace, name, allowed, failed) => Delete(t, namespace, name, allowed, failed)
    case CreateNamespaceOp(name, allowed, failed) => CreateNamespace(t, name, allowed, failed)
    case DeleteNamespaceOp(name, allowed, failed) => DeleteNamespace(t, name, allowed, failed)
  }

  /** The tables after a run that starts from an empty database. */
  function Run(env: Env, ops: seq<Op>): Tables {
    if ops == [] then EMPTY else Step(env, Run(env, ops[..|ops| - 1]), ops[|ops| - 1]).0
  }

  type ResourceKey = (string, string)

  datatype Entry = Entry(uuid: nat, value: Bytes)

  type Histories = map<ResourceKey, seq<Entry>>

  function Of(h: Histories, key: ResourceKey): seq<Entry> {
    if key in h then h[key] else []
  }

  /** What one answered request means to its users: a PUT that succeeded records its value,
      a DELETE that succeeded forgets the resource, and nothing else counts. */
  function Record(h: Histories, op: Op, outcome: Outcome): Histories {
    if op.PutOp? && outcome.Stored? then
      var key := (op.r.namespace, op.r.name);
      h[key := Of(h, key) + [Entry(outcome.uuid, op.r.value)]]
    else if op.DeleteOp? && outcome == Done then h - {(op.namespace, op.name)}
    else h
  }

  /** The values given by the successful PUTs of a run since each resource was last deleted,
      read off the requests and their outcomes alone. */
  function History(env: Env, ops: seq<Op>): Histories {
    if ops == [] then map[]
    else
      var before := ops[..|ops| - 1];
      var op := ops[|ops| - 1];
      Record(History(env, before), op, Step(env, Run(env, before), op).1)
  }
}
