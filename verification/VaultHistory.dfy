/** What users of the resource store can rely on over every run: the history reads back,
    version numbers have no gaps, and nothing recorded ever changes. */
module VaultHistory {
  import opened Strings
  import opened Crypto
  import opened Vault
  import opened VaultIntegrity

  /** Reading version `n` of a resource, after any run, gives the value of the `n`-th PUT that
      succeeded since the resource was last deleted, and nothing outside 1..n. */
  lemma NumberedReadsBack(env: Env, ops: seq<Op>, namespace: string, name: string, n: nat)
    ensures var entries := Of(History(env, ops), (namespace, name));
            Get(env, Run(env, ops), namespace, name, Number(n), true) ==
            if 1 <= n <= |entries| then Value(entries[n - 1].value) else Refused(NotFound)
  {
    hide Integrity, Faithful, Run, History, FindVersion;
    var t, h := Run(env, ops), History(env, ops);
    RunsAreFaithful(env, ops);
    if namespace == RESERVED {
      NothingReserved(env, t, h, name);
    } else {
      FoundResource(t, namespace, name);
      match FindResource(t, namespace, name)
      case None => NoResourceNoHistory(env, t, h, (namespace, name));
      case Some(id) =>
        FindsVersion(env, t, h, id, n);
        if 1 <= n <= |Of(h, (namespace, name))| {
          EntryReveals(env, t, h, (namespace, name), n - 1);
        }
    }
  }

  /** `latest` gives the last recorded value; before any PUT has succeeded it gives no value,
      whether or not a failed PUT has already left the resource's row behind. */
  lemma LatestReadsBack(env: Env, ops: seq<Op>, namespace: string, name: string)
    ensures var entries := Of(History(env, ops), (namespace, name));
            var t := Run(env, ops);
            Get(env, t, namespace, name, Latest, true) ==
            if entries != [] then Value(entries[|entries| - 1].value)
            else if namespace != RESERVED && FindResource(t, namespace, name).Some? then NoValueYet
            else Refused(NotFound)
  {
    hide Integrity, Faithful, Run, History, FindVersion, MaxVersion;
    var t, h := Run(env, ops), History(env, ops);
    RunsAreFaithful(env, ops);
    if namespace == RESERVED {
      NothingReserved(env, t, h, name);
    } else {
      FoundResource(t, namespace, name);
      match FindResource(t, namespace, name)
      case None => NoResourceNoHistory(env, t, h, (namespace, name));
      case Some(id) =>
        var n := |Of(h, (namespace, name))|;
        MaxIsHistoryLength(env, t, h, id);
        FindsVersion(env, t, h, id, n);
        if n > 0 {
          EntryReveals(env, t, h, (namespace, name), n - 1);
        }
    }
  }

  /** A uuid alone gives the value of the PUT that minted it. */
  lemma UuidReadsBack(env: Env, ops: seq<Op>, key: ResourceKey, i: nat)
    requires i < |Of(History(env, ops), key)|
    ensures var e := History(env, ops)[key][i];
            GetByUuid(env, Run(env, ops), e.uuid, true) == Value(e.value)
  {
    hide Integrity, Run, History;
    var t, h := Run(env, ops), History(env, ops);
    RunsAreFaithful(env, ops);
    EntryReveals(env, t, h, key, i);
    VersionHasResource(t, h[key][i].uuid);
  }

  /** A uuid that no recorded PUT minted, or whose resource was deleted, is not found. */
  lemma UnknownUuid(env: Env, ops: seq<Op>, uuid: nat)
    requires forall key <- History(env, ops), i :: 0 <= i < |History(env, ops)[key]| ==>
             History(env, ops)[key][i].uuid != uuid
    ensures GetByUuid(env, Run(env, ops), uuid, true) == Refused(NotFound)
  {
    hide Integrity, Run, History;
    var t, h := Run(env, ops), History(env, ops);
    RunsAreFaithful(env, ops);
    assert uuid in t.versions ==> RowRecorded(env, t, h, uuid);
  }

  lemma EntryReveals(env: Env, t: Tables, h: Histories, key: ResourceKey, i: nat)
    requires Integrity(t) && Faithful(env, t, h) && i < |Of(h, key)|
    ensures h[key][i].uuid in t.versions
    ensures Reveal(env, t, t.versions[h[key][i].uuid]) == Ok(h[key][i].value)
  {
    hide Integrity, Reveal;
    var e := h[key][i];
    assert EntryStored(t, key, e, i + 1);
    assert RowRecorded(env, t, h, e.uuid);
  }

  lemma NoResourceNoHistory(env: Env, t: Tables, h: Histories, key: ResourceKey)
    requires Integrity(t) && Faithful(env, t, h)
    requires forall id <- t.resources :: KeyOf(t, id) != key
    ensures Of(h, key) == []
  {
    hide Integrity, KeyOf;
    if key in h {
      assert EntryStored(t, key, h[key][0], 1);
      VersionHasResource(t, h[key][0].uuid);
    }
  }

  lemma NothingReserved(env: Env, t: Tables, h: Histories, name: string)
    requires Integrity(t) && Faithful(env, t, h)
    ensures Of(h, (RESERVED, name)) == []
  {
    hide Faithful;
    NoResourceNoHistory(env, t, h, (RESERVED, name));
  }

  // ------------------------------------------------------------------ version numbers

  /** In every reachable state the versions of each resource are exactly 1..n, each once. */
  lemma VersionsHaveNoGaps(env: Env, ops: seq<Op>, id: nat)
    requires id in Run(env, ops).resources
    ensures var t := Run(env, ops);
            var n := MaxVersion(t.versions, id, t.nextId);
            && (forall k: nat :: FindVersion(t, id, k).Some? <==> 1 <= k <= n)
            && (forall u <- t.versions :: t.versions[u].resourceId == id ==>
                  1 <= t.versions[u].number <= n && FindVersion(t, id, t.versions[u].number) == Some(u))
  {
    hide Integrity, Faithful, Run, History, FindVersion, MaxVersion;
    var t, h := Run(env, ops), History(env, ops);
    RunsAreFaithful(env, ops);
    MaxIsHistoryLength(env, t, h, id);
    forall k: nat ensures FindVersion(t, id, k).Some? <==> 1 <= k <= |Of(h, KeyOf(t, id))| {
      FindsVersion(env, t, h, id, k);
    }
    forall u | u in t.versions && t.versions[u].resourceId == id
      ensures 1 <= t.versions[u].number <= |Of(h, KeyOf(t, id))| && FindVersion(t, id, t.versions[u].number) == Some(u)
    {
      FindsVersion(env, t, h, id, t.versions[u].number);
      RowIsRecorded(env, t, h, u);
    }
  }

  lemma RowIsRecorded(env: Env, t: Tables, h: Histories, u: nat)
    requires Faithful(env, t, h) && u in t.versions
    ensures RowRecorded(env, t, h, u)
  {}

  /** Every reachable state has referential integrity and uniqueness. */
  lemma ReachableIntegrity(env: Env, ops: seq<Op>)
    ensures Integrity(Run(env, ops))
  {
    RunsAreFaithful(env, ops);
  }

  // ------------------------------------------------------------------- append only

  /** Rows are only added, under ids not used before. */
  ghost predicate Grows(t: Tables, t': Tables) {
    && t.nextId <= t'.nextId
    && (forall k <- t.keys :: k < t.nextId ==> k in t'.keys && t'.keys[k] == t.keys[k])
    && (forall u <- t.versions :: u < t.nextId ==> u in t'.versions && t'.versions[u] == t.versions[u])
    && (forall u <- t'.versions :: u < t.nextId ==> u in t.versions)
  }

  lemma GrowsTransitively(a: Tables, b: Tables, c: Tables)
    requires Grows(a, b) && Grows(b, c)
    ensures Grows(a, c)
  {}

  lemma SameVersionsGrow(t: Tables, t': Tables)
    requires t.nextId <= t'.nextId && t'.keys == t.keys && t'.versions == t.versions
    ensures Grows(t, t')
  {}

  lemma WithKeyGrows(t: Tables, encryptedDek: Bytes)
    ensures Grows(t, WithKey(t, encryptedDek))
  {}

  lemma StagesGrow(env: Env, t: Tables, namespaceId: nat, r: PutRequest, rnd: Randomness, fault: Option<PutStep>)
    ensures Grows(t, EnsureNamespace(t, r.namespace, fault).0)
    ensures Grows(t, EnsureResource(t, namespaceId, r, fault).0)
    ensures Grows(t, MakePayload(env, t, r, rnd, fault).0)
  {
    hide Encrypt, FindNamespace, FindResource, Grows, WithKey;
    GrowsReflexively(t);
    SameVersionsGrow(t, EnsureNamespace(t, r.namespace, fault).0);
    SameVersionsGrow(t, EnsureResource(t, namespaceId, r, fault).0);
    if env.kek.Some? {
      var e := Encrypt(env.cipher, r.value, env.kek.value, rnd);
      if e.Ok? { WithKeyGrows(t, e.value.encryptedDek); }
    }
  }

  lemma AddVersionGrows(t: Tables, id: nat, p: Payload)
    ensures Grows(t, AddVersion(t, id, p))
  {
    hide MaxVersion;
  }

  lemma PutGrows(env: Env, t: Tables, op: Op)
    requires op.PutOp?
    ensures Grows(t, Step(env, t, op).0)
  {
    hide EnsureNamespace, EnsureResource, MakePayload, AddVersion, Grows;
    var r, rnd, fault := op.r, op.rnd, op.fault;
    GrowsReflexively(t);
    if PutRefusal(r, op.allowed).None? {
      var (t1, ns) := EnsureNamespace(t, r.namespace, fault);
      StagesGrow(env, t, 0, r, rnd, fault);
      if ns.Some? {
        var (t2, id) := EnsureResource(t1, ns.value, r, fault);
        StagesGrow(env, t1, ns.value, r, rnd, fault);
        GrowsTransitively(t, t1, t2);
        if id.Some? {
          var (t3, payload) := MakePayload(env, t2, r, rnd, fault);
          StagesGrow(env, t2, ns.value, r, rnd, fault);
          GrowsTransitively(t, t2, t3);
          if payload.Some? {
            AddVersionGrows(t3, id.value, payload.value);
            GrowsTransitively(t, t3, AddVersion(t3, id.value, payload.value));
          }
        }
      }
    }
  }

  lemma GrowsReflexively(t: Tables)
    ensures Grows(t, t)
  {}

  lemma OthersGrow(env: Env, t: Tables, op: Op)
    requires !op.PutOp? && !(op.DeleteOp? && Step(env, t, op).1 == Done)
    ensures Grows(t, Step(env, t, op).0)
  {
    hide FindNamespace, FindResource, HasResources;
  }

  /** A version row, and the key that opens it, is never altered by a later request; only the
      successful deletion of its own resource removes it. */
  lemma VersionsAreAppendOnly(env: Env, t: Tables, op: Op, u: nat)
    requires Integrity(t) && u in t.versions
    ensures var (t', outcome) := Step(env, t, op);
            || (u in t'.versions && t'.versions[u] == t.versions[u] &&
                Reveal(env, t', t.versions[u]) == Reveal(env, t, t.versions[u]))
            || (op.DeleteOp? && outcome == Done && KeyOf(t, t.versions[u].resourceId) == (op.namespace, op.name))
  {
    assert u < t.nextId && VersionSound(t, t.versions[u]);
    if op.DeleteOp? && Step(env, t, op).1 == Done {
      if KeyOf(t, t.versions[u].resourceId) != (op.namespace, op.name) {
        DeletionSpares(env, t, op, u);
      }
    } else {
      hide Step, Integrity, KeyOf;
      if op.PutOp? { PutGrows(env, t, op); } else { OthersGrow(env, t, op); }
    }
  }

  lemma DeletionSpares(env: Env, t: Tables, op: Op, u: nat)
    requires Integrity(t) && u in t.versions && op.DeleteOp? && Step(env, t, op).1 == Done
    requires KeyOf(t, t.versions[u].resourceId) != (op.namespace, op.name)
    ensures var t' := Step(env, t, op).0;
            u in t'.versions && t'.versions[u] == t.versions[u] && t'.keys == t.keys
  {
    hide Integrity;
    FoundResource(t, op.namespace, op.name);
  }

  /** An id once handed out is never a version's uuid again after that version is gone. */
  lemma {:induction false} GoneStaysGone(env: Env, ops: seq<Op>, more: seq<Op>, u: nat)
    requires u < Run(env, ops).nextId && u !in Run(env, ops).versions
    ensures u < Run(env, ops + more).nextId && u !in Run(env, ops + more).versions
  {
    hide Step, Run;
    if more == [] {
      assert ops + more == ops;
    } else {
      var before := more[..|more| - 1];
      var op := more[|more| - 1];
      GoneStaysGone(env, ops, before, u);
      assert (ops + more)[..|ops + more| - 1] == ops + before;
      assert (ops + more)[|ops + more| - 1] == op;
      RunStep(env, ops + more);
      StaysGone(env, Run(env, ops + before), op, u);
    }
  }

  lemma RunStep(env: Env, ops: seq<Op>)
    requires ops != []
    ensures Run(env, ops) == Step(env, Run(env, ops[..|ops| - 1]), ops[|ops| - 1]).0
  {}

  lemma StaysGone(env: Env, t: Tables, op: Op, u: nat)
    requires u < t.nextId && u !in t.versions
    ensures u < Step(env, t, op).0.nextId && u !in Step(env, t, op).0.versions
  {
    hide FindResource, Put, CreateNamespace, DeleteNamespace;
    if op.PutOp? {
      PutGrows(env, t, op);
    } else if !(op.DeleteOp? && Step(env, t, op).1 == Done) {
      OthersGrow(env, t, op);
    }
  }

  /** After a successful DELETE none of the resource's versions is ever reachable again, and
      its history starts over: the next successful PUT is version 1. */
  lemma DeletedVersionsStayGone(env: Env, before: seq<Op>, deletion: Op, more: seq<Op>, i: nat)
    requires deletion.DeleteOp? && Step(env, Run(env, before), deletion).1 == Done
    requires i < |Of(History(env, before), (deletion.namespace, deletion.name))|
    ensures var key := (deletion.namespace, deletion.name);
            && Of(History(env, before + [deletion]), key) == []
            && GetByUuid(env, Run(env, before + [deletion] + more), History(env, before)[key][i].uuid, true) ==
               Refused(NotFound)
  {
    hide Integrity, Faithful;
    var key: ResourceKey := (deletion.namespace, deletion.name);
    var t: Tables, h: Histories := Run(env, before), History(env, before);
    var u := h[key][i].uuid;
    var ops := before + [deletion];
    assert ops[..|ops| - 1] == before && ops[|ops| - 1] == deletion;
    RunsAreFaithful(env, before);
    EntryReveals(env, t, h, key, i);
    VersionHasResource(t, u);
    DeletionRemoves(env, t, h, deletion, i);
    GoneStaysGone(env, ops, more, u);
  }

  lemma DeletionRemoves(env: Env, t: Tables, h: Histories, deletion: Op, i: nat)
    requires Integrity(t) && Faithful(env, t, h)
    requires deletion.DeleteOp? && Step(env, t, deletion).1 == Done
    requires i < |Of(h, (deletion.namespace, deletion.name))|
    ensures h[(deletion.namespace, deletion.name)][i].uuid !in Step(env, t, deletion).0.versions
  {
    hide Integrity, RowRecorded;
    var key := (deletion.namespace, deletion.name);
    FoundResource(t, key.0, key.1);
    var u := h[key][i].uuid;
    assert EntryStored(t, key, h[key][i], i + 1);
    VersionHasResource(t, u);
    KeyIsUnique(t, t.versions[u].resourceId, FindResource(t, key.0, key.1).value);
  }
}
