/** Which rows a reader of the resource store is shown, and when that is more than the reader's
    own permissions allow (internal/api/resource.go). */
module VaultReading {
  import opened Strings
  import opened Crypto
  import opened Vault
  import opened VaultIntegrity
  import opened VaultHistory
  import Glob
  import Authz

  /** A caller whose permissions could be read: what is held, what is open to everybody, when. */
  datatype Reader = Reader(own: seq<Authz.Permission>, anon: seq<Authz.AnonPermission>, now: Authz.Time)

  /** `CheckWithAnon`. */
  predicate Passes(who: Reader, verb: Authz.Verb, key: ResourceKey) {
    var resource := key.0 + "/" + key.1;
    Authz.Allows(who.own, verb, resource, who.now) || Authz.AnonAllows(who.anon, verb, resource, who.now)
  }

  /** The caller is granted the verb, by a permission of its own or by an anonymous one. */
  ghost predicate Holds(who: Reader, verb: Authz.Verb, resource: string) {
    Authz.AnyGrants(who.own, verb, resource, who.now) || Authz.AnyAnonGrants(who.anon, verb, resource, who.now)
  }

  lemma PassesExactly(who: Reader, verb: Authz.Verb, key: ResourceKey)
    ensures Passes(who, verb, key) <==> Holds(who, verb, key.0 + "/" + key.1)
  {
    hide Authz.Allows, Authz.AnonAllows, Authz.AnyGrants, Authz.AnyAnonGrants;
    Authz.AllowsExactly(who.own, verb, key.0 + "/" + key.1, who.now);
    Authz.AnonAllowsExactly(who.anon, verb, key.0 + "/" + key.1, who.now);
  }

  predicate MayRead(who: Reader, key: ResourceKey) {
    Passes(who, Authz.Read, key)
  }

  /** `handleGetResource` with its access decision: on the resource named. */
  function ReadVersion(env: Env, t: Tables, who: Reader, key: ResourceKey, which: Selector): Answer {
    Get(env, t, key.0, key.1, which, MayRead(who, key))
  }

  function OwnerOf(t: Tables, uuid: nat): ResourceKey {
    if uuid in t.versions then KeyOf(t, t.versions[uuid].resourceId) else ("", "")
  }

  /** `handleGetByUUID` with its access decision: on the resource the version belongs to. */
  function ReadByUuid(env: Env, t: Tables, who: Reader, uuid: nat): Answer {
    GetByUuid(env, t, uuid, MayRead(who, OwnerOf(t, uuid)))
  }

  // -------------------------------------------------------------------- rows and owners

  ghost predicate Recorded(h: Histories, key: ResourceKey, uuid: nat) {
    exists e <- Of(h, key) :: e.uuid == uuid
  }

  /** A row belongs to the resource whose history its uuid is in. */
  lemma OwnerIsRecorded(env: Env, t: Tables, h: Histories, uuid: nat, key: ResourceKey)
    requires Integrity(t) && Faithful(env, t, h) && uuid in t.versions
    ensures OwnerOf(t, uuid) == key <==> Recorded(h, key, uuid)
  {
    hide Integrity, KeyOf;
    RowIsRecorded(env, t, h, uuid);
    var number := t.versions[uuid].number;
    if OwnerOf(t, uuid) == key { assert Of(h, key)[number - 1] in Of(h, key); }
    if Recorded(h, key, uuid) {
      var e :| e in Of(h, key) && e.uuid == uuid;
      var i :| 0 <= i < |h[key]| && h[key][i] == e;
      assert EntryStored(t, key, h[key][i], i + 1);
    }
  }

  /** No resource lives in the reserved namespace. */
  lemma FoundIsNotReserved(t: Tables, key: ResourceKey)
    requires Integrity(t) && FindResource(t, key.0, key.1).Some?
    ensures key.0 != RESERVED
  {}

  lemma RowReveals(env: Env, t: Tables, h: Histories, uuid: nat)
    requires Faithful(env, t, h) && uuid in t.versions
    ensures Reveal(env, t, t.versions[uuid]).Ok?
  {
    assert RowRecorded(env, t, h, uuid);
  }

  // ------------------------------------------------------------ a uuid given as version

  /** A uuid given as the version of any stored resource reads back the value of the PUT that
      minted it, whichever resource that PUT was for. */
  lemma UuidThroughResource(env: Env, ops: seq<Op>, key: ResourceKey, i: nat, namespace: string, name: string)
    requires i < |Of(History(env, ops), key)|
    ensures var t := Run(env, ops);
            var e := History(env, ops)[key][i];
            Get(env, t, namespace, name, Uuid(e.uuid), true) ==
            if FindResource(t, namespace, name).Some? then Value(e.value) else Refused(NotFound)
  {
    hide Integrity, Faithful, Run, History, FindResource, Reveal;
    var t, h := Run(env, ops), History(env, ops);
    RunsAreFaithful(env, ops);
    EntryReveals(env, t, h, key, i);
    if FindResource(t, namespace, name).Some? { FoundIsNotReserved(t, (namespace, name)); }
  }

  /** A uuid that no recorded PUT minted is not found that way either. */
  lemma UnknownUuidThroughResource(env: Env, ops: seq<Op>, uuid: nat, namespace: string, name: string)
    requires forall key: ResourceKey :: !Recorded(History(env, ops), key, uuid)
    ensures Get(env, Run(env, ops), namespace, name, Uuid(uuid), true) == Refused(NotFound)
  {
    hide Integrity, Faithful, Run, History, FindResource;
    var t, h := Run(env, ops), History(env, ops);
    RunsAreFaithful(env, ops);
    if uuid in t.versions { OwnerIsRecorded(env, t, h, uuid, OwnerOf(t, uuid)); }
  }

  /** The row a query shows is one of the resource it names exactly when the selector is not a
      uuid, or is one in that resource's own history. */
  lemma ShowsOwnRow(env: Env, ops: seq<Op>, key: ResourceKey, which: Selector)
    requires FindResource(Run(env, ops), key.0, key.1).Some?
    requires Selected(Run(env, ops), FindResource(Run(env, ops), key.0, key.1).value, which).Some?
    ensures var t := Run(env, ops);
            var u := Selected(t, FindResource(t, key.0, key.1).value, which);
            && Get(env, t, key.0, key.1, which, true) == Show(env, t, u)
            && (OwnerOf(t, u.value) == key <==> (which.Uuid? ==> Recorded(History(env, ops), key, which.uuid)))
  {
    hide Integrity, Faithful, Run, History, FindResource, MaxVersion;
    var t, h := Run(env, ops), History(env, ops);
    RunsAreFaithful(env, ops);
    FoundIsNotReserved(t, key);
    FoundResource(t, key.0, key.1);
    var u := Selected(t, FindResource(t, key.0, key.1).value, which).value;
    OwnerIsRecorded(env, t, h, u, key);
  }

  // -------------------------------------------------------------------------- confinement

  /** The row a reader is shown, if any. */
  function Disclosed(t: Tables, who: Reader, key: ResourceKey, which: Selector): (u: Option<nat>)
    ensures u.Some? ==> u.value in t.versions
  {
    var id := FindResource(t, key.0, key.1);
    if !MayRead(who, key) || id.None? then None else Selected(t, id.value, which)
  }

  /** A value is answered exactly when a row is disclosed, and it is that row's plaintext. */
  lemma AnswersDisclosed(env: Env, ops: seq<Op>, who: Reader, key: ResourceKey, which: Selector)
    ensures var t := Run(env, ops);
            var u := Disclosed(t, who, key, which);
            var answer := ReadVersion(env, t, who, key, which);
            if u.Some? then answer.Value? && Reveal(env, t, t.versions[u.value]) == Ok(answer.value)
            else !answer.Value?
  {
    hide Integrity, Faithful, Run, History, FindResource, MayRead, Reveal, LatestVersion, FindVersion;
    var t, h := Run(env, ops), History(env, ops);
    RunsAreFaithful(env, ops);
    if FindResource(t, key.0, key.1).Some? { FoundIsNotReserved(t, key); }
    var u := Disclosed(t, who, key, which);
    if u.Some? { RowReveals(env, t, h, u.value); }
  }

  /** Nothing is disclosed to a caller who is not granted reading the resource named. */
  lemma DisclosureNeedsRead(t: Tables, who: Reader, key: ResourceKey, which: Selector)
    requires Disclosed(t, who, key, which).Some?
    ensures Holds(who, Authz.Read, key.0 + "/" + key.1)
  {
    hide Passes, Holds, FindResource, Selected;
    PassesExactly(who, Authz.Read, key);
  }

  /** Nothing is disclosed to the reader of a resource the reader may not read. */
  ghost predicate Confined(t: Tables, who: Reader) {
    forall key: ResourceKey, which: Selector ::
      Disclosed(t, who, key, which).Some? ==> MayRead(who, OwnerOf(t, Disclosed(t, who, key, which).value))
  }

  ghost predicate ReadsNothing(t: Tables, who: Reader) {
    forall id <- t.resources :: !MayRead(who, KeyOf(t, id))
  }

  ghost predicate ReadsEverything(h: Histories, who: Reader) {
    forall key <- h :: MayRead(who, key)
  }

  lemma ReachesAcross(env: Env, t: Tables, h: Histories, who: Reader, id: nat, key: ResourceKey)
    requires Integrity(t) && Faithful(env, t, h)
    requires id in t.resources && MayRead(who, KeyOf(t, id)) && key in h && !MayRead(who, key)
    ensures !Confined(t, who)
  {
    hide Integrity, MayRead, KeyOf, FindResource;
    FindsResource(t, id);
    var e := h[key][0];
    assert EntryStored(t, key, e, 1);
    assert Disclosed(t, who, KeyOf(t, id), Uuid(e.uuid)) == Some(e.uuid);
  }

  lemma StaysWithin(env: Env, t: Tables, h: Histories, who: Reader, key: ResourceKey, which: Selector)
    requires Integrity(t) && Faithful(env, t, h) && Disclosed(t, who, key, which).Some?
    requires ReadsNothing(t, who) || ReadsEverything(h, who)
    ensures MayRead(who, OwnerOf(t, Disclosed(t, who, key, which).value))
  {
    hide Integrity, Faithful, MayRead, FindResource, Selected;
    FoundResource(t, key.0, key.1);
    var u := Disclosed(t, who, key, which).value;
    OwnerIsRecorded(env, t, h, u, OwnerOf(t, u));
  }

  /** Reads are confined exactly for a reader who may read no stored resource at all, or every
      one that has a value: the uuid given as a version is the only way out. */
  lemma ConfinedExactly(env: Env, ops: seq<Op>, who: Reader)
    ensures var t := Run(env, ops);
            Confined(t, who) <==> ReadsNothing(t, who) || ReadsEverything(History(env, ops), who)
  {
    hide Integrity, Faithful, Run, History, MayRead, Disclosed, OwnerOf, KeyOf;
    var t, h := Run(env, ops), History(env, ops);
    RunsAreFaithful(env, ops);
    if !ReadsNothing(t, who) && !ReadsEverything(h, who) {
      var id :| id in t.resources && MayRead(who, KeyOf(t, id));
      var key :| key in h && !MayRead(who, key);
      ReachesAcross(env, t, h, who, id, key);
    }
    if ReadsNothing(t, who) || ReadsEverything(h, who) {
      forall key: ResourceKey, which: Selector | Disclosed(t, who, key, which).Some?
        ensures MayRead(who, OwnerOf(t, Disclosed(t, who, key, which).value))
      {
        StaysWithin(env, t, h, who, key, which);
      }
    }
  }

  /** Without uuids every read is confined. */
  lemma NumbersAreConfined(env: Env, ops: seq<Op>, who: Reader, key: ResourceKey, which: Selector)
    requires !which.Uuid? && Disclosed(Run(env, ops), who, key, which).Some?
    ensures OwnerOf(Run(env, ops), Disclosed(Run(env, ops), who, key, which).value) == key && MayRead(who, key)
  {
    hide Run, History, FindResource, MayRead, Selected, OwnerOf, Show;
    ShowsOwnRow(env, ops, key, which);
  }

  /** The uuid route answers exactly the readers of the resource the version belongs to. */
  lemma ByUuidIsConfined(env: Env, ops: seq<Op>, who: Reader, uuid: nat)
    ensures var t := Run(env, ops);
            ReadByUuid(env, t, who, uuid).Value? <==> uuid in t.versions && MayRead(who, OwnerOf(t, uuid))
  {
    hide Integrity, Faithful, Run, History, MayRead, Reveal;
    var t, h := Run(env, ops), History(env, ops);
    RunsAreFaithful(env, ops);
    if uuid in t.versions {
      RowReveals(env, t, h, uuid);
      VersionHasResource(t, uuid);
    }
  }

  /** Everything a read can answer, after any run, in terms of the requests answered before it. */
  lemma ReadAnswers(env: Env, ops: seq<Op>, who: Reader, key: ResourceKey, which: Selector)
    ensures var t := Run(env, ops);
            var entries := Of(History(env, ops), key);
            ReadVersion(env, t, who, key, which) ==
            if key.0 == "_" then Refused(NotFound)
            else if !Holds(who, Authz.Read, key.0 + "/" + key.1) then Refused(Forbidden)
            else if FindResource(t, key.0, key.1).None? then Refused(NotFound)
            else
              match which
              case Latest => if entries == [] then NoValueYet else Value(entries[|entries| - 1].value)
              case Number(n) => if 1 <= n <= |entries| then Value(entries[n - 1].value) else Refused(NotFound)
              case Uuid(u) => Show(env, t, if u in t.versions then Some(u) else None)
              case Malformed => Refused(BadRequest)
  {
    hide Run, History, FindResource, Passes, Holds, Show, FindVersion, LatestVersion;
    PassesExactly(who, Authz.Read, key);
    NumberedReadsBack(env, ops, key.0, key.1, if which.Number? then which.number else 0);
    LatestReadsBack(env, ops, key.0, key.1);
  }

  // ------------------------------------------------------------------------- an instance

  /** A cleartext PUT none of whose writes fails is stored. */
  function CleanPut(namespace: string, name: string, value: Bytes, rnd: Randomness): Op {
    PutOp(PutRequest(namespace, name, Cleartext, value), true, rnd, None)
  }

  lemma CleanPutStores(env: Env, t: Tables, namespace: string, name: string, value: Bytes, rnd: Randomness)
    requires namespace != "" && name != "" && namespace != RESERVED
    ensures Step(env, t, CleanPut(namespace, name, value, rnd)).1.Stored?
  {
    hide FindNamespace, FindResource, MaxVersion;
  }

  function TwoPuts(rnd: Randomness): seq<Op> {
    [CleanPut("a", "x", [1], rnd), CleanPut("b", "y", [2], rnd)]
  }

  /** A reader of namespace `a` alone. */
  const READER_OF_A := Reader([Authz.Permission(0, "a" + "/" + "*", Authz.Read, None)], [], 0)

  lemma ReadsOnlyA()
    ensures MayRead(READER_OF_A, ("a", "x")) && !MayRead(READER_OF_A, ("b", "y"))
  {
    var p := READER_OF_A.own[0];
    assert READER_OF_A.own == [p];
    Glob.SplitSlashConcat("a", "*");
    Glob.SplitSlashConcat("a", "x");
    Glob.SplitSlashConcat("b", "y");
    Glob.StarMatches("x");
    assert |p.pattern| == 3 && p.pattern[0] == 'a';
    assert Authz.Covers(p, Authz.Read, "a" + "/" + "x", 0) by { Authz.PlainMatchIsEquality("a", "a"); }
    assert !Authz.Covers(p, Authz.Read, "b" + "/" + "y", 0) by { Authz.PlainMatchIsEquality("a", "b"); }
  }

  lemma TwoPutsHistory(env: Env, rnd: Randomness)
    ensures var h := History(env, TwoPuts(rnd));
            && |Of(h, ("a", "x"))| == 1 && |Of(h, ("b", "y"))| == 1 && h[("b", "y")][0].value == [2]
  {
    hide Step;
    var ops := TwoPuts(rnd);
    assert ops[..1] == [ops[0]] && ops[..1][..0] == [];
    CleanPutStores(env, Run(env, []), "a", "x", [1], rnd);
    CleanPutStores(env, Run(env, ops[..1]), "b", "y", [2], rnd);
    assert History(env, ops[..1]) == Record(map[], ops[0], Step(env, Run(env, []), ops[0]).1);
  }

  /** After one PUT in each of two namespaces, a reader of the first is refused the second
      resource and its uuid, yet is shown its value as a version of the first. */
  lemma UuidReachesAcross(env: Env, rnd: Randomness)
    ensures |Of(History(env, TwoPuts(rnd)), ("b", "y"))| == 1
    ensures var t := Run(env, TwoPuts(rnd));
            var uuid := History(env, TwoPuts(rnd))[("b", "y")][0].uuid;
            && ReadVersion(env, t, READER_OF_A, ("b", "y"), Latest) == Refused(Forbidden)
            && ReadByUuid(env, t, READER_OF_A, uuid) == Refused(NotFound)
            && ReadVersion(env, t, READER_OF_A, ("a", "x"), Uuid(uuid)) == Value([2])
  {
    hide Integrity, Faithful, Run, History, FindResource, MayRead, Reveal, TwoPuts, READER_OF_A;
    var ops := TwoPuts(rnd);
    var t: Tables, h: Histories := Run(env, ops), History(env, ops);
    TwoPutsHistory(env, rnd);
    ReadsOnlyA();
    RunsAreFaithful(env, ops);
    var uuid := h[("b", "y")][0].uuid;
    EntryReveals(env, t, h, ("b", "y"), 0);
    VersionHasResource(t, uuid);
    assert h[("b", "y")][0] in Of(h, ("b", "y"));
    OwnerIsRecorded(env, t, h, uuid, ("b", "y"));
    EntryReveals(env, t, h, ("a", "x"), 0);
    HistoryHasResource(env, t, h, ("a", "x"));
    UuidThroughResource(env, ops, ("b", "y"), 0, "a", "x");
  }

  /** What has a history has a row. */
  lemma HistoryHasResource(env: Env, t: Tables, h: Histories, key: ResourceKey)
    requires Integrity(t) && Faithful(env, t, h) && Of(h, key) != []
    ensures FindResource(t, key.0, key.1).Some?
  {
    hide Integrity, Faithful, FindResource, KeyOf;
    FoundResource(t, key.0, key.1);
    if FindResource(t, key.0, key.1).None? { NoResourceNoHistory(env, t, h, key); }
  }
}
