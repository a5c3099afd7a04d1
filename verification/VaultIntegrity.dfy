/** What every request keeps true of the resource tables, and how the rows mirror the
    history of successful PUTs. */
module VaultIntegrity {
  import opened Strings
  import opened Crypto
  import opened Vault

  // -------------------------------------------------------------------- invariants

  ghost predicate NamespacesSound(t: Tables) {
    && (forall id <- t.namespaces :: id < t.nextId && t.namespaces[id] != RESERVED)
    && (forall a <- t.namespaces, b <- t.namespaces :: t.namespaces[a] == t.namespaces[b] ==> a == b)
  }

  ghost predicate ResourcesSound(t: Tables) {
    && (forall id <- t.resources :: id < t.nextId && t.resources[id].namespaceId in t.namespaces)
    && (forall a <- t.resources, b <- t.resources ::
          t.resources[a].namespaceId == t.resources[b].namespaceId && t.resources[a].name == t.resources[b].name ==>
            a == b)
  }

  ghost predicate VersionsSound(t: Tables) {
    && (forall k <- t.keys :: k < t.nextId)
    && (forall u <- t.versions :: u < t.nextId && VersionSound(t, t.versions[u]))
  }

  ghost predicate VersionSound(t: Tables, v: Version) {
    && v.number >= 1
    && v.resourceId in t.resources
    && (v.algorithm == Aes256Gcm <==> v.keyId.Some?)
    && (v.keyId.Some? ==> v.keyId.value in t.keys)
  }

  /** Referential integrity and uniqueness. */
  ghost predicate Integrity(t: Tables) {
    NamespacesSound(t) && ResourcesSound(t) && VersionsSound(t)
  }

  function KeyOf(t: Tables, id: nat): ResourceKey {
    if id in t.resources && t.resources[id].namespaceId in t.namespaces
    then (t.namespaces[t.resources[id].namespaceId], t.resources[id].name)
    else ("", "")
  }

  /** The row is the one its resource's history has at its version number. */
  ghost predicate RowRecorded(env: Env, t: Tables, h: Histories, u: nat)
    requires u in t.versions
  {
    var v := t.versions[u];
    var entries := Of(h, KeyOf(t, v.resourceId));
    && 1 <= v.number <= |entries|
    && entries[v.number - 1].uuid == u
    && Reveal(env, t, v) == Ok(entries[v.number - 1].value)
  }

  /** The entry is stored as a row of its resource under its position. */
  ghost predicate EntryStored(t: Tables, key: ResourceKey, e: Entry, number: nat) {
    && e.uuid in t.versions
    && t.versions[e.uuid].number == number
    && KeyOf(t, t.versions[e.uuid].resourceId) == key
  }

  /** The version rows are exactly the recorded history. */
  ghost predicate Faithful(env: Env, t: Tables, h: Histories) {
    && (forall u <- t.versions :: RowRecorded(env, t, h, u))
    && (forall key <- h :: h[key] != [])
    && (forall key <- h, i :: 0 <= i < |h[key]| ==> EntryStored(t, key, h[key][i], i + 1))
  }

  // ----------------------------------------------------------------------- queries

  lemma KeyIsUnique(t: Tables, a: nat, b: nat)
    requires Integrity(t) && a in t.resources && b in t.resources
    ensures KeyOf(t, a) == KeyOf(t, b) <==> a == b
  {}

  lemma FoundResource(t: Tables, namespace: string, name: string)
    requires Integrity(t)
    ensures FindResource(t, namespace, name).Some? ==>
              var id := FindResource(t, namespace, name).value; id in t.resources && KeyOf(t, id) == (namespace, name)
    ensures FindResource(t, namespace, name).None? ==> forall id <- t.resources :: KeyOf(t, id) != (namespace, name)
  {}

  lemma FindsResource(t: Tables, id: nat)
    requires Integrity(t) && id in t.resources
    ensures FindResource(t, KeyOf(t, id).0, KeyOf(t, id).1) == Some(id)
  {
    var key := KeyOf(t, id);
    FoundResource(t, key.0, key.1);
    var found := FindResource(t, key.0, key.1);
    if found.Some? { KeyIsUnique(t, id, found.value); }
  }

  /** Reading the maximum counts the recorded entries. */
  lemma MaxIsHistoryLength(env: Env, t: Tables, h: Histories, id: nat)
    requires Integrity(t) && Faithful(env, t, h) && id in t.resources
    ensures MaxVersion(t.versions, id, t.nextId) == |Of(h, KeyOf(t, id))|
  {
    var key := KeyOf(t, id);
    var n := |Of(h, key)|;
    if n > 0 {
      var last := h[key][n - 1];
      assert EntryStored(t, key, last, n);
      KeyIsUnique(t, t.versions[last.uuid].resourceId, id);
    }
    var m := MaxVersion(t.versions, id, t.nextId);
    if m > 0 {
      var u :| u in t.versions && t.versions[u].resourceId == id && t.versions[u].number == m;
      assert RowRecorded(env, t, h, u);
    }
  }

  /** Looking a version number up finds the recorded entry, or nothing outside 1..n. */
  lemma FindsVersion(env: Env, t: Tables, h: Histories, id: nat, n: nat)
    requires Integrity(t) && Faithful(env, t, h) && id in t.resources
    ensures var entries := Of(h, KeyOf(t, id));
            FindVersion(t, id, n) == if 1 <= n <= |entries| then Some(entries[n - 1].uuid) else None
  {
    var key := KeyOf(t, id);
    var entries := Of(h, key);
    var found := FindVersion(t, id, n);
    if found.Some? {
      assert RowRecorded(env, t, h, found.value);
    }
    if 1 <= n <= |entries| {
      assert EntryStored(t, key, h[key][n - 1], n);
      KeyIsUnique(t, t.versions[entries[n - 1].uuid].resourceId, id);
    }
  }

  // ------------------------------------------------------------------- small steps

  /** Adding rows elsewhere, or changing a type, disturbs no recorded version. */
  ghost predicate SameHistory(t: Tables, t': Tables) {
    && t'.versions == t.versions
    && (forall k <- t.keys :: k in t'.keys && t'.keys[k] == t.keys[k])
    && (forall id <- t.resources :: id in t'.resources && KeyOf(t', id) == KeyOf(t, id))
  }

  lemma SameHistoryFaithful(env: Env, t: Tables, t': Tables, h: Histories)
    requires Integrity(t) && Faithful(env, t, h) && SameHistory(t, t')
    ensures Faithful(env, t', h)
  {
    forall u | u in t'.versions ensures RowRecorded(env, t', h, u) {
      assert RowRecorded(env, t, h, u) && VersionSound(t, t.versions[u]);
    }
    forall key, i | key in h && 0 <= i < |h[key]| ensures EntryStored(t', key, h[key][i], i + 1) {
      assert EntryStored(t, key, h[key][i], i + 1);
      assert VersionSound(t, t.versions[h[key][i].uuid]);
    }
  }

  lemma WithNamespaceSound(t: Tables, name: string)
    requires Integrity(t) && FindNamespace(t, name).None? && name != RESERVED
    ensures Integrity(WithNamespace(t, name)) && SameHistory(t, WithNamespace(t, name))
  {
    var t' := WithNamespace(t, name);
    assert NamespacesSound(t');
    assert ResourcesSound(t');
    VersionsStaySound(t, t');
  }

  /** Version rows stay sound when no resource or key disappears. */
  lemma VersionsStaySound(t: Tables, t': Tables)
    requires VersionsSound(t) && t'.versions == t.versions && t.nextId <= t'.nextId
    requires t.resources.Keys <= t'.resources.Keys && t.keys.Keys <= t'.keys.Keys
    requires forall k <- t'.keys :: k < t'.nextId
    ensures VersionsSound(t')
  {
    forall u | u in t'.versions ensures u < t'.nextId && VersionSound(t', t'.versions[u]) {
      assert u < t.nextId && VersionSound(t, t.versions[u]);
    }
  }

  lemma EnsureNamespaceKeeps(env: Env, t: Tables, h: Histories, name: string, fault: Option<PutStep>)
    requires Integrity(t) && Faithful(env, t, h) && name != RESERVED
    ensures var (t', id) := EnsureNamespace(t, name, fault);
            Integrity(t') && Faithful(env, t', h) &&
            (id.Some? ==> id.value in t'.namespaces && t'.namespaces[id.value] == name)
  {
    hide Integrity, Faithful, SameHistory;
    if FindNamespace(t, name).None? {
      WithNamespaceSound(t, name);
      SameHistoryFaithful(env, t, WithNamespace(t, name), h);
    }
  }

  lemma NewResourceSound(t: Tables, r: Resource)
    requires Integrity(t) && r.namespaceId in t.namespaces
    requires FindResource(t, t.namespaces[r.namespaceId], r.name).None?
    ensures Integrity(WithResource(t, r)) && SameHistory(t, WithResource(t, r))
  {
    var t' := WithResource(t, r);
    FoundResource(t, t.namespaces[r.namespaceId], r.name);
    forall a | a in t.resources
      ensures !(t.resources[a].namespaceId == r.namespaceId && t.resources[a].name == r.name)
    {
      assert KeyOf(t, a) != (t.namespaces[r.namespaceId], r.name);
    }
    assert ResourcesSound(t');
    VersionsStaySound(t, t');
  }

  lemma RetypedResourceSound(t: Tables, id: nat, rtype: ResourceType)
    requires Integrity(t) && id in t.resources
    ensures var t' := Retyped(t, id, rtype); Integrity(t') && SameHistory(t, t')
  {
    var t' := Retyped(t, id, rtype);
    assert ResourcesSound(t');
    VersionsStaySound(t, t');
  }

  lemma EnsureResourceKeeps(env: Env, t: Tables, h: Histories, namespaceId: nat, r: PutRequest, fault: Option<PutStep>)
    requires Integrity(t) && Faithful(env, t, h)
    requires namespaceId in t.namespaces && t.namespaces[namespaceId] == r.namespace
    ensures var (t', id) := EnsureResource(t, namespaceId, r, fault);
            Integrity(t') && Faithful(env, t', h) &&
            (id.Some? ==> id.value in t'.resources && KeyOf(t', id.value) == (r.namespace, r.name))
  {
    hide Integrity, Faithful, SameHistory;
    FoundResource(t, r.namespace, r.name);
    match FindResource(t, r.namespace, r.name)
    case None =>
      var row := Resource(namespaceId, r.name, r.rtype);
      NewResourceSound(t, row);
      SameHistoryFaithful(env, t, WithResource(t, row), h);
    case Some(id) =>
      RetypedResourceSound(t, id, r.rtype);
      SameHistoryFaithful(env, t, Retyped(t, id, r.rtype), h);
  }

  lemma WithKeySound(t: Tables, encryptedDek: Bytes)
    requires Integrity(t)
    ensures Integrity(WithKey(t, encryptedDek)) && SameHistory(t, WithKey(t, encryptedDek))
  {
    var t' := WithKey(t, encryptedDek);
    assert NamespacesSound(t') && ResourcesSound(t');
    VersionsStaySound(t, t');
  }

  /** The payload stands for the value: with its key, or in the clear. */
  ghost predicate PayloadFits(env: Env, t: Tables, p: Payload, value: Bytes) {
    && (p.algorithm == Aes256Gcm <==> p.keyId.Some?)
    && (p.keyId.Some? ==> p.keyId.value in t.keys)
    && Reveal(env, t, Version(0, 0, p.data, p.algorithm, p.keyId)) == Ok(value)
  }

  lemma MakePayloadKeeps(env: Env, t: Tables, h: Histories, r: PutRequest, rnd: Randomness, fault: Option<PutStep>)
    requires Integrity(t) && Faithful(env, t, h)
    ensures var (t', payload) := MakePayload(env, t, r, rnd, fault);
            && Integrity(t') && Faithful(env, t', h)
            && t'.resources == t.resources && t'.namespaces == t.namespaces
            && (payload.Some? ==> PayloadFits(env, t', payload.value, r.value))
  {
    hide Integrity, Faithful, SameHistory, Encrypt, Decrypt;
    if r.rtype == Encrypted && env.kek.Some? {
      EnvelopeRoundTrip(env.cipher, r.value, env.kek.value, rnd);
      var e := Encrypt(env.cipher, r.value, env.kek.value, rnd).value;
      WithKeySound(t, e.encryptedDek);
      SameHistoryFaithful(env, t, WithKey(t, e.encryptedDek), h);
      assert Envelope(e.data, e.encryptedDek) == e;
    }
  }

  lemma AddVersionSound(env: Env, t: Tables, id: nat, p: Payload, value: Bytes)
    requires Integrity(t) && id in t.resources && PayloadFits(env, t, p, value)
    ensures Integrity(AddVersion(t, id, p))
  {
    hide Reveal, MaxVersion;
    var t' := AddVersion(t, id, p);
    assert NamespacesSound(t') && ResourcesSound(t');
    forall u | u in t'.versions ensures u < t'.nextId && VersionSound(t', t'.versions[u]) {
      if u in t.versions && u != t.nextId {
        assert u < t.nextId && VersionSound(t, t.versions[u]);
      }
    }
  }

  /** A history extended at `key` by the entry stored under the next id. */
  function Extended(h: Histories, key: ResourceKey, uuid: nat, value: Bytes): Histories {
    h[key := Of(h, key) + [Entry(uuid, value)]]
  }

  lemma AddVersionRow(env: Env, t: Tables, h: Histories, id: nat, p: Payload, value: Bytes, u: nat)
    requires id in t.resources && PayloadFits(env, t, p, value)
    requires u == t.nextId || (u in t.versions && RowRecorded(env, t, h, u))
    requires MaxVersion(t.versions, id, t.nextId) == |Of(h, KeyOf(t, id))|
    ensures RowRecorded(env, AddVersion(t, id, p), Extended(h, KeyOf(t, id), t.nextId, value), u)
  {
    hide MaxVersion, Reveal;
    var t' := AddVersion(t, id, p);
    RevealSame(env, t, t', t'.versions[u]);
    RevealSame(env, t, t', Version(0, 0, p.data, p.algorithm, p.keyId));
    if u == t.nextId { RevealIgnoresPlace(env, t', t'.versions[u]); }
  }

  lemma RevealSame(env: Env, t: Tables, t': Tables, v: Version)
    requires t'.keys == t.keys
    ensures Reveal(env, t', v) == Reveal(env, t, v)
  {}

  lemma RevealIgnoresPlace(env: Env, t: Tables, v: Version)
    ensures Reveal(env, t, v) == Reveal(env, t, Version(0, 0, v.data, v.algorithm, v.keyId))
  {}

  lemma AddVersionRows(t: Tables, id: nat, p: Payload, u: nat)
    ensures u in AddVersion(t, id, p).versions <==> u == t.nextId || u in t.versions
  {}

  lemma AddVersionEntry(env: Env, t: Tables, h: Histories, id: nat, p: Payload, value: Bytes, k: ResourceKey, i: nat)
    requires Integrity(t) && Faithful(env, t, h) && id in t.resources
    requires MaxVersion(t.versions, id, t.nextId) == |Of(h, KeyOf(t, id))|
    requires k in Extended(h, KeyOf(t, id), t.nextId, value)
    requires i < |Extended(h, KeyOf(t, id), t.nextId, value)[k]|
    ensures EntryStored(AddVersion(t, id, p), k, Extended(h, KeyOf(t, id), t.nextId, value)[k][i], i + 1)
  {
    hide MaxVersion, Reveal, RowRecorded;
    if k != KeyOf(t, id) || i < |Of(h, k)| {
      assert EntryStored(t, k, h[k][i], i + 1);
      assert h[k][i].uuid < t.nextId;
    }
  }

  lemma AddVersionKeeps(env: Env, t: Tables, h: Histories, id: nat, p: Payload, value: Bytes)
    requires Integrity(t) && Faithful(env, t, h) && id in t.resources
    requires PayloadFits(env, t, p, value)
    ensures Integrity(AddVersion(t, id, p))
    ensures Faithful(env, AddVersion(t, id, p), Extended(h, KeyOf(t, id), t.nextId, value))
  {
    hide AddVersion, RowRecorded, EntryStored, MaxVersion, Integrity, PayloadFits, KeyOf;
    AddVersionSound(env, t, id, p, value);
    MaxIsHistoryLength(env, t, h, id);
    var t', h' := AddVersion(t, id, p), Extended(h, KeyOf(t, id), t.nextId, value);
    forall u | u in t'.versions ensures RowRecorded(env, t', h', u) {
      AddVersionRows(t, id, p, u);
      AddVersionRow(env, t, h, id, p, value, u);
    }
    forall k, i | k in h' && 0 <= i < |h'[k]| ensures EntryStored(t', k, h'[k][i], i + 1) {
      AddVersionEntry(env, t, h, id, p, value, k, i);
    }
  }

  // ------------------------------------------------------------------- whole steps

  lemma PutKeeps(env: Env, t: Tables, h: Histories, op: Op)
    requires Integrity(t) && Faithful(env, t, h) && op.PutOp?
    ensures var (t', outcome) := Step(env, t, op);
            Integrity(t') && Faithful(env, t', Record(h, op, outcome))
  {
    hide Integrity, Faithful, EnsureNamespace, EnsureResource, MakePayload, AddVersion;
    var r, fault := op.r, op.fault;
    if PutRefusal(r, op.allowed).None? {
      var (t1, ns) := EnsureNamespace(t, r.namespace, fault);
      EnsureNamespaceKeeps(env, t, h, r.namespace, fault);
      if ns.Some? {
        var (t2, id) := EnsureResource(t1, ns.value, r, fault);
        EnsureResourceKeeps(env, t1, h, ns.value, r, fault);
        if id.Some? {
          var (t3, payload) := MakePayload(env, t2, r, op.rnd, fault);
          MakePayloadKeeps(env, t2, h, r, op.rnd, fault);
          if payload.Some? {
            AddVersionKeeps(env, t3, h, id.value, payload.value, r.value);
          }
        }
      }
    }
  }

  lemma RemoveResourceSound(t: Tables, id: nat)
    requires Integrity(t) && id in t.resources
    ensures Integrity(RemoveResource(t, id))
  {
    var t' := RemoveResource(t, id);
    assert NamespacesSound(t') && ResourcesSound(t');
    forall u | u in t'.versions ensures u < t'.nextId && VersionSound(t', t'.versions[u]) {
      assert VersionSound(t, t.versions[u]);
    }
  }

  lemma RemoveResourceRow(env: Env, t: Tables, h: Histories, id: nat, u: nat)
    requires Integrity(t) && id in t.resources && u in RemoveResource(t, id).versions && RowRecorded(env, t, h, u)
    ensures RowRecorded(env, RemoveResource(t, id), h - {KeyOf(t, id)}, u)
  {
    hide Integrity, Decrypt;
    VersionHasResource(t, u);
    KeyIsUnique(t, t.versions[u].resourceId, id);
  }

  lemma VersionHasResource(t: Tables, u: nat)
    requires Integrity(t) && u in t.versions
    ensures t.versions[u].resourceId in t.resources && t.versions[u].number >= 1 && u < t.nextId
  {
    assert VersionSound(t, t.versions[u]);
  }

  lemma RemoveResourceKeeps(env: Env, t: Tables, h: Histories, id: nat)
    requires Integrity(t) && Faithful(env, t, h) && id in t.resources
    ensures Integrity(RemoveResource(t, id)) && Faithful(env, RemoveResource(t, id), h - {KeyOf(t, id)})
  {
    hide Integrity, RowRecorded, Reveal;
    RemoveResourceSound(t, id);
    var t' := RemoveResource(t, id);
    var h' := h - {KeyOf(t, id)};
    forall u | u in t'.versions ensures RowRecorded(env, t', h', u) {
      RemoveResourceRow(env, t, h, id, u);
    }
    forall k, i | k in h' && 0 <= i < |h'[k]| ensures EntryStored(t', k, h'[k][i], i + 1) {
      var e := h[k][i];
      assert EntryStored(t, k, e, i + 1);
      VersionHasResource(t, e.uuid);
    }
  }

  lemma DeleteKeeps(env: Env, t: Tables, h: Histories, op: Op)
    requires Integrity(t) && Faithful(env, t, h) && op.DeleteOp?
    ensures var (t', outcome) := Step(env, t, op);
            Integrity(t') && Faithful(env, t', Record(h, op, outcome))
  {
    hide Integrity, Faithful, RemoveResource;
    FoundResource(t, op.namespace, op.name);
    var found := FindResource(t, op.namespace, op.name);
    if found.Some? { RemoveResourceKeeps(env, t, h, found.value); }
  }

  lemma WithoutNamespaceSound(t: Tables, name: string)
    requires Integrity(t) && !HasResources(t, name)
    ensures Integrity(WithoutNamespace(t, name)) && SameHistory(t, WithoutNamespace(t, name))
  {
    var t' := WithoutNamespace(t, name);
    forall id | id in t.resources
      ensures KeyOf(t', id) == KeyOf(t, id) && t.resources[id].namespaceId in t'.namespaces
    {
      assert !Located(t, t.resources[id], name);
    }
    assert NamespacesSound(t');
    assert ResourcesSound(t');
    VersionsStaySound(t, t');
  }

  lemma NamespaceOpsKeep(env: Env, t: Tables, h: Histories, op: Op)
    requires Integrity(t) && Faithful(env, t, h) && (op.CreateNamespaceOp? || op.DeleteNamespaceOp?)
    ensures var (t', outcome) := Step(env, t, op);
            Integrity(t') && Faithful(env, t', Record(h, op, outcome))
  {
    hide Integrity, Faithful, SameHistory, HasResources;
    var name := op.namespace;
    if op.CreateNamespaceOp? && name != RESERVED && FindNamespace(t, name).None? {
      WithNamespaceSound(t, name);
      SameHistoryFaithful(env, t, WithNamespace(t, name), h);
    }
    if op.DeleteNamespaceOp? && !HasResources(t, name) {
      WithoutNamespaceSound(t, name);
      SameHistoryFaithful(env, t, WithoutNamespace(t, name), h);
    }
  }

  lemma StepKeeps(env: Env, t: Tables, h: Histories, op: Op)
    requires Integrity(t) && Faithful(env, t, h)
    ensures var (t', outcome) := Step(env, t, op);
            Integrity(t') && Faithful(env, t', Record(h, op, outcome))
  {
    hide Integrity, Faithful, Step, Record;
    match op
    case PutOp(_, _, _, _) => PutKeeps(env, t, h, op);
    case DeleteOp(_, _, _, _) => DeleteKeeps(env, t, h, op);
    case CreateNamespaceOp(_, _, _) => NamespaceOpsKeep(env, t, h, op);
    case DeleteNamespaceOp(_, _, _) => NamespaceOpsKeep(env, t, h, op);
  }

  lemma EmptyIsFaithful(env: Env)
    ensures Integrity(EMPTY) && Faithful(env, EMPTY, map[])
  {}

  /** Every reachable state is sound and mirrors the history, whatever failed on the way. */
  lemma {:induction false} RunsAreFaithful(env: Env, ops: seq<Op>)
    ensures Integrity(Run(env, ops)) && Faithful(env, Run(env, ops), History(env, ops))
  {
    hide Integrity, Faithful, Step, Record;
    if ops == [] {
      EmptyIsFaithful(env);
    } else {
      var before := ops[..|ops| - 1];
      RunsAreFaithful(env, before);
      StepKeeps(env, Run(env, before), History(env, before), ops[|ops| - 1]);
    }
  }
}
