/** Permission checks and the namespace index (internal/authz/permissions.go,
    internal/orm/permissions.go, internal/store/anon.go, internal/api/resource.go). */
module Authz {
  import opened Strings
  import opened Glob

  datatype Verb = List | Read | Write | Delete

  /** Nanoseconds since the Unix epoch. */
  type Time = int

  const SECOND: Time := 1_000_000_000
  const MINUTE: Time := 60 * SECOND

  /** 9999-12-31T23:59:59Z, stored when a permission is given no expiry. */
  const NO_EXPIRY: Time := 253_402_300_799 * SECOND

  datatype Permission = Permission(id: nat, pattern: string, verb: Verb, expires: Option<Time>)

  datatype AnonPermission = Anon(id: nat, pattern: string, verb: Verb, expires: Option<Time>)

  function NewPermission(id: nat, pattern: string, verb: Verb, expiry: Option<Time>): Permission {
    Permission(id, pattern, verb, Some(if expiry.Some? then expiry.value else NO_EXPIRY))
  }

  // ----------------------------------------------------------------------- checks

  predicate Expired(p: Permission, now: Time) {
    p.expires.Some? && now > p.expires.value
  }

  predicate Covers(p: Permission, verb: Verb, resource: string, now: Time) {
    !Expired(p, now) && p.verb == verb && MatchesPattern(resource, p.pattern)
  }

  /** Some unexpired permission with the verb matches. */
  predicate Allows(permissions: seq<Permission>, verb: Verb, resource: string, now: Time) {
    exists p <- permissions :: Covers(p, verb, resource, now)
  }

  /** The permission grants the verb on the resource: it has the verb, has not expired, and the
      resource is in the language of its pattern. */
  ghost predicate Grants(p: Permission, verb: Verb, resource: string, now: Time) {
    p.verb == verb && (p.expires.None? || now <= p.expires.value) && InPatternLanguage(p.pattern, resource)
  }

  ghost predicate AnyGrants(permissions: seq<Permission>, verb: Verb, resource: string, now: Time) {
    exists p <- permissions :: Grants(p, verb, resource, now)
  }

  lemma AllowsExactly(permissions: seq<Permission>, verb: Verb, resource: string, now: Time)
    ensures Allows(permissions, verb, resource, now) <==> AnyGrants(permissions, verb, resource, now)
  {
    hide MatchesPattern, InPatternLanguage;
    forall p | p in permissions ensures Covers(p, verb, resource, now) <==> Grants(p, verb, resource, now) {
      PatternDecidesLanguage(resource, p.pattern);
    }
  }

  /** The loop of `Check`, on the permissions read for the principal. */
  method Check(permissions: seq<Permission>, verb: Verb, namespace: string, name: string, now: Time)
    returns (allowed: bool)
    ensures allowed == Allows(permissions, verb, namespace + "/" + name, now)
    ensures allowed <==> AnyGrants(permissions, verb, namespace + "/" + name, now)
  {
    AllowsExactly(permissions, verb, namespace + "/" + name, now);
    hide AnyGrants, MatchesPattern;
    var resource := namespace + "/" + name;
    for i := 0 to |permissions|
      invariant !Allows(permissions[..i], verb, resource, now)
    {
      var p := permissions[i];
      assert permissions[..i + 1] == permissions[..i] + [p];
      if Expired(p, now) {
        continue;
      }
      if p.verb != verb {
        continue;
      }
      if MatchesPattern(resource, p.pattern) {
        assert Covers(p, verb, resource, now);
        return true;
      }
    }
    assert permissions[..|permissions|] == permissions;
    return false;
  }

  predicate AnonLive(a: AnonPermission, now: Time) {
    a.expires.None? || a.expires.value > now
  }

  predicate AnonCovers(a: AnonPermission, verb: Verb, resource: string) {
    a.verb == verb && MatchesPattern(resource, a.pattern)
  }

  /** `ListAnonPermissions`: the rows whose expiry is absent or still ahead. */
  function LiveAnon(anon: seq<AnonPermission>, now: Time): (live: seq<AnonPermission>)
    ensures forall a :: a in live <==> a in anon && AnonLive(a, now)
  {
    if anon == [] then []
    else (if AnonLive(anon[0], now) then [anon[0]] else []) + LiveAnon(anon[1..], now)
  }

  predicate AnonAllows(anon: seq<AnonPermission>, verb: Verb, resource: string, now: Time) {
    exists a <- anon :: AnonLive(a, now) && AnonCovers(a, verb, resource)
  }

  /** The same for an anonymous row, which is over at the very instant of its expiry. */
  ghost predicate AnonGrants(a: AnonPermission, verb: Verb, resource: string, now: Time) {
    a.verb == verb && (a.expires.None? || now < a.expires.value) && InPatternLanguage(a.pattern, resource)
  }

  ghost predicate AnyAnonGrants(anon: seq<AnonPermission>, verb: Verb, resource: string, now: Time) {
    exists a <- anon :: AnonGrants(a, verb, resource, now)
  }

  lemma AnonAllowsExactly(anon: seq<AnonPermission>, verb: Verb, resource: string, now: Time)
    ensures AnonAllows(anon, verb, resource, now) <==> AnyAnonGrants(anon, verb, resource, now)
  {
    hide MatchesPattern, InPatternLanguage;
    forall a | a in anon
      ensures AnonLive(a, now) && AnonCovers(a, verb, resource) <==> AnonGrants(a, verb, resource, now)
    {
      PatternDecidesLanguage(resource, a.pattern);
    }
  }

  method CheckAnon(anon: seq<AnonPermission>, verb: Verb, namespace: string, name: string, now: Time)
    returns (allowed: bool)
    ensures allowed == AnonAllows(anon, verb, namespace + "/" + name, now)
    ensures allowed <==> AnyAnonGrants(anon, verb, namespace + "/" + name, now)
  {
    AnonAllowsExactly(anon, verb, namespace + "/" + name, now);
    hide AnyAnonGrants, MatchesPattern;
    var rows := LiveAnon(anon, now);
    var resource := namespace + "/" + name;
    for i := 0 to |rows|
      invariant forall k :: 0 <= k < i ==> !AnonCovers(rows[k], verb, resource)
    {
      if rows[i].verb != verb {
        continue;
      }
      if MatchesPattern(resource, rows[i].pattern) {
        assert rows[i] in rows && AnonCovers(rows[i], verb, resource);
        return true;
      }
    }
    return false;
  }

  /** Row order and duplicates are irrelevant to a check. */
  lemma AllowsIsOrderless(a: seq<Permission>, b: seq<Permission>, verb: Verb, resource: string, now: Time)
    requires forall p :: p in a <==> p in b
    ensures Allows(a, verb, resource, now) == Allows(b, verb, resource, now)
  {}

  /** Grants only add. */
  lemma AllowsGrows(a: seq<Permission>, b: seq<Permission>, verb: Verb, resource: string, now: Time)
    requires forall p :: p in a ==> p in b
    ensures Allows(a, verb, resource, now) ==> Allows(b, verb, resource, now)
  {}

  /** Time only removes. */
  lemma AllowsShrinks(a: seq<Permission>, verb: Verb, resource: string, now: Time, later: Time)
    requires now <= later && Allows(a, verb, resource, later)
    ensures Allows(a, verb, resource, now)
  {
    var p :| p in a && Covers(p, verb, resource, later);
    assert Covers(p, verb, resource, now);
  }

  // ------------------------------------------------------------- delegated coverage

  /** Whoever passes a check on the text of a pattern passes it on everything the pattern
      matches, at that moment, outside the gap of the `*` / `*` shortcut. */
  lemma CoverageTransfers(held: seq<Permission>, verb: Verb, pattern: string, resource: string, now: Time)
    requires Allows(held, verb, pattern, now) && MatchesPattern(resource, pattern)
    ensures Allows(held, verb, resource, now) || (pattern == ANYTHING && '/' in SplitSlash(resource).1)
  {
    var p :| p in held && Covers(p, verb, pattern, now);
    PatternInclusion(p.pattern, pattern, resource);
    assert MatchesPattern(resource, p.pattern) ==> Covers(p, verb, resource, now);
  }

  // -------------------------------------------------------------- the namespace index

  type Index = map<string, seq<Verb>>

  predicate NoDuplicates<T(==)>(s: seq<T>) {
    forall i, j :: 0 <= i < j < |s| ==> s[i] != s[j]
  }

  /** The namespaces the index loop keeps. */
  predicate Indexable(namespace: string) {
    namespace != "*" && namespace != "_" && '*' !in namespace && '?' !in namespace && '[' !in namespace
  }

  predicate Listed(index: Index, namespace: string, verb: Verb) {
    namespace in index && verb in index[namespace]
  }

  ghost predicate WellFormedIndex(index: Index) {
    forall ns <- index :: Indexable(ns) && index[ns] != [] && NoDuplicates(index[ns])
  }

  /** A held permission that puts `verb` under `namespace`. */
  predicate Names(p: Permission, namespace: string, verb: Verb, now: Time) {
    !Expired(p, now) && p.verb == verb && SplitSlash(p.pattern).0 == namespace
  }

  predicate AnonNames(a: AnonPermission, namespace: string, verb: Verb, now: Time) {
    AnonLive(a, now) && a.verb == verb && SplitSlash(a.pattern).0 == namespace
  }

  predicate Named(own: seq<Permission>, ns: string, v: Verb, now: Time) {
    exists p <- own :: Names(p, ns, v, now)
  }

  predicate AnonNamed(anon: seq<AnonPermission>, ns: string, v: Verb, now: Time) {
    exists a <- anon :: AnonNames(a, ns, v, now)
  }

  /** The index is exactly the plain namespaces of live patterns with their verbs. */
  ghost predicate IsIndex(index: Index, own: seq<Permission>, anon: seq<AnonPermission>, now: Time) {
    && WellFormedIndex(index)
    && forall ns, v :: Listed(index, ns, v) <==>
         Indexable(ns) && (Named(own, ns, v, now) || AnonNamed(anon, ns, v, now))
  }

  lemma NamedAppend(own: seq<Permission>, p: Permission, now: Time)
    ensures forall ns, v :: Named(own + [p], ns, v, now) <==> Named(own, ns, v, now) || Names(p, ns, v, now)
  {
    assert p in own + [p];
  }

  lemma AnonNamedAppend(anon: seq<AnonPermission>, a: AnonPermission, now: Time)
    ensures forall ns, v :: AnonNamed(anon + [a], ns, v, now) <==>
            AnonNamed(anon, ns, v, now) || AnonNames(a, ns, v, now)
  {
    assert a in anon + [a];
  }

  lemma AnonNamedLive(anon: seq<AnonPermission>, now: Time)
    ensures forall ns, v :: AnonNamed(LiveAnon(anon, now), ns, v, now) <==> AnonNamed(anon, ns, v, now)
  {}

  /** Append a verb to a namespace's list unless it is already there. */
  method AddVerb(index: Index, namespace: string, verb: Verb) returns (result: Index)
    requires WellFormedIndex(index) && Indexable(namespace)
    ensures WellFormedIndex(result)
    ensures forall ns, v :: Listed(result, ns, v) <==> Listed(index, ns, v) || (ns == namespace && v == verb)
  {
    var verbs := if namespace in index then index[namespace] else [];
    var duplicate := false;
    for i := 0 to |verbs|
      invariant !duplicate && verb !in verbs[..i]
    {
      if verbs[i] == verb {
        duplicate := true;
        break;
      }
    }
    result := index;
    if !duplicate {
      result := index[namespace := verbs + [verb]];
    }
  }

  method NamespacesForPrincipal(permissions: seq<Permission>, now: Time) returns (result: Index)
    ensures IsIndex(result, permissions, [], now)
  {
    result := map[];
    for i := 0 to |permissions|
      invariant IsIndex(result, permissions[..i], [], now)
    {
      var p := permissions[i];
      assert permissions[..i + 1] == permissions[..i] + [p];
      NamedAppend(permissions[..i], p, now);
      if Expired(p, now) {
        continue;
      }
      var ns := SplitSlash(p.pattern).0;
      if !Indexable(ns) {
        continue;
      }
      result := AddVerb(result, ns, p.verb);
    }
    assert permissions[..|permissions|] == permissions;
  }

  /** `NamespacesForPrincipalWithAnon`; `own` is `None` for an unauthenticated caller. */
  method NamespacesForPrincipalWithAnon(own: Option<seq<Permission>>, anon: seq<AnonPermission>, now: Time)
    returns (result: Index)
    ensures IsIndex(result, Held(own), anon, now)
  {
    result := map[];
    if own.Some? {
      result := NamespacesForPrincipal(own.value, now);
    }
    ghost var mine := Held(own);
    var rows := LiveAnon(anon, now);
    for i := 0 to |rows|
      invariant IsIndex(result, mine, rows[..i], now)
    {
      var a := rows[i];
      assert rows[..i + 1] == rows[..i] + [a];
      AnonNamedAppend(rows[..i], a, now);
      assert a in rows && AnonLive(a, now);
      var ns := SplitSlash(a.pattern).0;
      if !Indexable(ns) {
        continue;
      }
      result := AddVerb(result, ns, a.verb);
    }
    assert rows[..|rows|] == rows;
    AnonNamedLive(anon, now);
  }

  lemma {:induction false} PlainMatchIsEquality(p: string, s: string)
    requires '*' !in p
    ensures Match(p, s) <==> p == s
  {
    if p != "" && s != "" {
      PlainMatchIsEquality(p[1..], s[1..]);
      assert p == [p[0]] + p[1..] && s == [s[0]] + s[1..];
    }
  }

  /** A name the pattern matches: every star becomes a letter. */
  function Witness(pattern: string): string {
    Generic(SplitSlash(pattern).1, 'x')
  }

  lemma PlainNamespaceWitness(pattern: string)
    requires '*' !in SplitSlash(pattern).0
    ensures MatchesPattern(SplitSlash(pattern).0 + "/" + Witness(pattern), pattern)
    ensures Witness(pattern) == "" <==> SplitSlash(pattern).1 == ""
  {
    var parts := SplitSlash(pattern);
    SplitSlashConcat(parts.0, Witness(pattern));
    PlainMatchIsEquality(parts.0, parts.0);
    GenericIsInstance(parts.1, 'x');
  }

  /** Only patterns without a name part put the verb under the namespace. */
  predicate OnlyNameless(own: seq<Permission>, anon: seq<AnonPermission>, now: Time, ns: string, v: Verb) {
    && (forall p <- own :: Names(p, ns, v, now) ==> SplitSlash(p.pattern).1 == "")
    && (forall a <- anon :: AnonNames(a, ns, v, now) ==> SplitSlash(a.pattern).1 == "")
  }

  lemma NamedIsAllowed(own: seq<Permission>, p: Permission, ns: string, v: Verb, now: Time)
    requires p in own && Names(p, ns, v, now) && Indexable(ns)
    ensures Allows(own, v, ns + "/" + Witness(p.pattern), now)
    ensures Witness(p.pattern) == "" <==> SplitSlash(p.pattern).1 == ""
  {
    PlainNamespaceWitness(p.pattern);
    assert Covers(p, v, ns + "/" + Witness(p.pattern), now);
  }

  lemma AnonNamedIsAllowed(anon: seq<AnonPermission>, a: AnonPermission, ns: string, v: Verb, now: Time)
    requires a in anon && AnonNames(a, ns, v, now) && Indexable(ns)
    ensures AnonAllows(anon, v, ns + "/" + Witness(a.pattern), now)
    ensures Witness(a.pattern) == "" <==> SplitSlash(a.pattern).1 == ""
  {
    PlainNamespaceWitness(a.pattern);
    assert AnonCovers(a, v, ns + "/" + Witness(a.pattern));
  }

  /** Everything the index lists, some name in the namespace really has; a non-empty one, unless
      every pattern that lists it has no name part. */
  lemma IndexIsSound(index: Index, own: seq<Permission>, anon: seq<AnonPermission>, now: Time, ns: string, v: Verb)
    requires IsIndex(index, own, anon, now) && Listed(index, ns, v)
    ensures exists name :: (name != "" || OnlyNameless(own, anon, now, ns, v)) &&
              (Allows(own, v, ns + "/" + name, now) || AnonAllows(anon, v, ns + "/" + name, now))
  {
    hide SplitSlash, MatchesPattern, Covers, AnonCovers;
    if p :| p in own && Names(p, ns, v, now) && (SplitSlash(p.pattern).1 != "" || OnlyNameless(own, anon, now, ns, v)) {
      NamedIsAllowed(own, p, ns, v, now);
    } else {
      var a :| a in anon && AnonNames(a, ns, v, now) &&
               (SplitSlash(a.pattern).1 != "" || OnlyNameless(own, anon, now, ns, v));
      AnonNamedIsAllowed(anon, a, ns, v, now);
    }
  }

  predicate Starred(pattern: string) {
    var ns := SplitSlash(pattern).0;
    '*' in ns || '?' in ns || '[' in ns
  }

  /** Everything a check accepts outside `_` is listed, unless only a pattern with a starred
      namespace accepts it. */
  lemma IndexIsComplete(index: Index, own: seq<Permission>, anon: seq<AnonPermission>, now: Time,
                        ns: string, name: string, v: Verb)
    requires IsIndex(index, own, anon, now)
    requires '/' !in ns && ns != "_"
    requires Allows(own, v, ns + "/" + name, now) || AnonAllows(anon, v, ns + "/" + name, now)
    ensures || Listed(index, ns, v)
            || (exists p <- own :: Starred(p.pattern) && Covers(p, v, ns + "/" + name, now))
            || (exists a <- anon :: Starred(a.pattern) && AnonLive(a, now) && AnonCovers(a, v, ns + "/" + name))
  {
    var resource := ns + "/" + name;
    SplitSlashConcat(ns, name);
    SplitAnything();
    if p :| p in own && Covers(p, v, resource, now) {
      if !Starred(p.pattern) {
        PlainMatchIsEquality(SplitSlash(p.pattern).0, ns);
        assert Names(p, ns, v, now);
      }
    } else {
      var a :| a in anon && AnonLive(a, now) && AnonCovers(a, v, resource);
      if !Starred(a.pattern) {
        PlainMatchIsEquality(SplitSlash(a.pattern).0, ns);
        assert AnonNames(a, ns, v, now);
      }
    }
  }

  // ------------------------------------------------------------- listing namespaces

  const META_NS := "_"
  const META_NS_RESOURCE := "ns"
  const META_USERS_RESOURCE := "users"

  function MetaResource(resource: string): string {
    META_NS + "/" + resource
  }

  /** `hasMetaNS`: a nil principal, or one that cannot be read, has nothing. */
  predicate HasMetaNS(own: Option<seq<Permission>>, verb: Verb, now: Time) {
    own.Some? && Allows(own.value, verb, MetaResource(META_NS_RESOURCE), now)
  }

  /** The right to a verb on all namespaces is that verb granted on `_/ns`. */
  lemma MetaVerbsExactly(own: Option<seq<Permission>>, verb: Verb, now: Time)
    ensures HasMetaNS(own, verb, now) <==> own.Some? && AnyGrants(own.value, verb, "_/ns", now)
  {
    hide Allows, AnyGrants;
    assert MetaResource(META_NS_RESOURCE) == "_/ns";
    if own.Some? { AllowsExactly(own.value, verb, "_/ns", now); }
  }

  method CollectMetaVerbs(own: Option<seq<Permission>>, now: Time) returns (out: seq<Verb>)
    ensures NoDuplicates(out)
    ensures forall v :: v in out <==> HasMetaNS(own, v, now)
    ensures forall v :: v in out <==> own.Some? && AnyGrants(own.value, v, "_/ns", now)
  {
    forall v ensures HasMetaNS(own, v, now) <==> own.Some? && AnyGrants(own.value, v, "_/ns", now) {
      MetaVerbsExactly(own, v, now);
    }
    var verbs := [List, Read, Write, Delete];
    out := [];
    for i := 0 to |verbs|
      invariant NoDuplicates(out)
      invariant forall v :: v in out <==> v in verbs[..i] && HasMetaNS(own, v, now)
    {
      assert verbs[i] !in verbs[..i];
      assert verbs[..i + 1] == verbs[..i] + [verbs[i]];
      if own.Some? {
        var ok := Check(own.value, verbs[i], META_NS, META_NS_RESOURCE, now);
        if ok {
          out := out + [verbs[i]];
        }
      }
    }
    assert verbs[..|verbs|] == verbs;
    forall v: Verb ensures v in verbs {
      match v case List => assert verbs[0] == v; case Read => assert verbs[1] == v;
      case Write => assert verbs[2] == v; case Delete => assert verbs[3] == v;
    }
  }

  method UnionVerbs(a: seq<Verb>, b: seq<Verb>) returns (out: seq<Verb>)
    ensures NoDuplicates(out)
    ensures forall v :: v in out <==> v in a || v in b
    ensures NoDuplicates(a) ==> a <= out
  {
    var all := a + b;
    var seen: set<Verb> := {};
    out := [];
    for i := 0 to |all|
      invariant NoDuplicates(out)
      invariant forall v :: v in seen <==> v in out
      invariant forall v :: v in out <==> v in all[..i]
      invariant NoDuplicates(a) ==> if i <= |a| then out == a[..i] else a <= out
    {
      assert all[..i + 1] == all[..i] + [all[i]];
      assert i < |a| ==> all[..i] == a[..i] && all[i] == a[i];
      if all[i] !in seen {
        seen := seen + {all[i]};
        out := out + [all[i]];
      }
    }
    assert all[..|all|] == all;
  }

  datatype NamespaceEntry = NamespaceEntry(namespace: string, verbs: seq<Verb>)

  predicate NamesOnce(entries: seq<NamespaceEntry>) {
    forall i, j :: 0 <= i < j < |entries| ==> entries[i].namespace != entries[j].namespace
  }

  predicate HasEntry(entries: seq<NamespaceEntry>, ns: string) {
    exists e <- entries :: e.namespace == ns
  }

  lemma EntryAppend(entries: seq<NamespaceEntry>, e: NamespaceEntry)
    ensures forall ns :: HasEntry(entries + [e], ns) <==> HasEntry(entries, ns) || ns == e.namespace
  {
    assert e in entries + [e];
  }

  /** The verbs an entry shows: what the index lists there and the caller's `_/ns` verbs. */
  ghost predicate ShowsUnion(e: NamespaceEntry, index: Index, metaVerbs: seq<Verb>) {
    && NoDuplicates(e.verbs)
    && forall v :: v in e.verbs <==> Listed(index, e.namespace, v) || v in metaVerbs
  }

  /** The loop over the index map, in whatever order the map yields its keys. */
  method EntriesOfIndex(index: Index, metaVerbs: seq<Verb>) returns (result: seq<NamespaceEntry>)
    requires WellFormedIndex(index)
    ensures NamesOnce(result)
    ensures forall e <- result :: e.namespace in index && ShowsUnion(e, index, metaVerbs)
    ensures forall ns :: HasEntry(result, ns) <==> ns in index
  {
    result := [];
    var pending := index.Keys;
    while pending != {}
      invariant pending <= index.Keys && NamesOnce(result)
      invariant forall e <- result :: e.namespace in index && ShowsUnion(e, index, metaVerbs)
      invariant forall ns :: HasEntry(result, ns) <==> ns in index.Keys - pending
      decreases pending
    {
      var ns :| ns in pending;
      var verbs := UnionVerbs(index[ns], metaVerbs);
      var e := NamespaceEntry(ns, verbs);
      assert ShowsUnion(e, index, metaVerbs);
      assert !HasEntry(result, ns);
      EntryAppend(result, e);
      result := result + [e];
      pending := pending - {ns};
    }
  }

  /** The namespace is named by a live plain pattern of the caller or of the anonymous set. */
  ghost predicate Patterned(own: seq<Permission>, anon: seq<AnonPermission>, ns: string, now: Time) {
    Indexable(ns) && exists v :: Named(own, ns, v, now) || AnonNamed(anon, ns, v, now)
  }

  /** The verbs `op=list` owes a namespace: own, anonymous and `_/ns` verbs. */
  ghost predicate Owed(own: Option<seq<Permission>>, anon: seq<AnonPermission>, ns: string, v: Verb, now: Time) {
    || (Indexable(ns) && (Named(Held(own), ns, v, now) || AnonNamed(anon, ns, v, now)))
    || HasMetaNS(own, v, now)
  }

  function Held(own: Option<seq<Permission>>): seq<Permission> {
    if own.Some? then own.value else []
  }

  lemma IndexKeys(index: Index, own: seq<Permission>, anon: seq<AnonPermission>, now: Time)
    requires IsIndex(index, own, anon, now)
    ensures forall ns :: ns in index <==> Patterned(own, anon, ns, now)
  {
    forall ns ensures ns in index <==> Patterned(own, anon, ns, now) {
      if ns in index {
        assert Listed(index, ns, index[ns][0]);
      }
      if Patterned(own, anon, ns, now) {
        var v :| Named(own, ns, v, now) || AnonNamed(anon, ns, v, now);
        assert Listed(index, ns, v);
      }
    }
  }

  /** `NamespaceHandler`, `op=list`. `stored` is the name column of the namespace table. */
  method ListNamespaces(own: Option<seq<Permission>>, anon: seq<AnonPermission>, stored: seq<string>, now: Time)
    returns (result: seq<NamespaceEntry>)
    requires NoDuplicates(stored)
    ensures NamesOnce(result)
    ensures forall e <- result :: e.namespace != META_NS && NoDuplicates(e.verbs)
    ensures forall e <- result, v :: v in e.verbs <==> Owed(own, anon, e.namespace, v, now)
    ensures forall ns :: HasEntry(result, ns) <==>
              || Patterned(Held(own), anon, ns, now)
              || (HasMetaNS(own, List, now) && ns != META_NS && ns in stored)
  {
    var index := NamespacesForPrincipalWithAnon(own, anon, now);
    IndexKeys(index, Held(own), anon, now);
    var metaVerbs := CollectMetaVerbs(own, now);
    result := EntriesOfIndex(index, metaVerbs);
    if HasMetaNS(own, List, now) {
      for i := 0 to |stored|
        invariant NamesOnce(result)
        invariant forall e <- result :: e.namespace != META_NS && ShowsUnion(e, index, metaVerbs)
        invariant forall ns :: HasEntry(result, ns) <==> ns in index || (ns != META_NS && ns in stored[..i])
      {
        var ns := stored[i];
        assert ns !in stored[..i];
        assert forall x :: x in stored[..i + 1] <==> x in stored[..i] || x == ns;
        if ns == META_NS {
          continue;
        }
        if ns !in index {
          var e := NamespaceEntry(ns, metaVerbs);
          assert !HasEntry(result, ns);
          EntryAppend(result, e);
          result := result + [e];
        }
      }
      assert stored[..|stored|] == stored;
    }
    assert forall e <- result :: ShowsUnion(e, index, metaVerbs);
  }
}
