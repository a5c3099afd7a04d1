/** Where the `*` / `*` pattern can be stored, over every run, and what delegating it allows
    (internal/authz/principal.go, internal/api/tokens.go, internal/api/admin.go). */
module Shortcut {
  import opened Strings
  import opened Glob
  import opened Principals
  import opened Authz
  import opened Access
  import opened AccessInvariants
  import opened Sync
  import opened Credentials
  import opened Revocation
  import opened Delegation
  import opened Provenance
  import Normalize

  // ------------------------------------------------------------------ stored patterns

  predicate TwoParts(pattern: string) {
    SplitSlash(pattern).0 != "" && SplitSlash(pattern).1 != ""
  }

  /** Two parts, and the namespace is not a lone star. */
  predicate Grantable(pattern: string) {
    TwoParts(pattern) && SplitSlash(pattern).0 != "*"
  }

  predicate RowFits(p: Permission, owner: Owner) {
    TwoParts(p.pattern) && (owner.OfToken? || Grantable(p.pattern))
  }

  ghost predicate RowsFit(rows: seq<Permission>, owner: Owner) {
    forall p <- rows :: RowFits(p, owner)
  }

  ghost predicate AnonFits(rows: seq<AnonPermission>) {
    forall a <- rows :: Grantable(a.pattern)
  }

  ghost predicate EntriesFit(entries: seq<Entry>, owner: Owner) {
    forall e <- entries :: TwoParts(e.pattern) && (owner.OfToken? || Grantable(e.pattern))
  }

  /** Every stored pattern has two parts, and only tokens have a lone star for a namespace. */
  ghost predicate PatternsFit(db: Db) {
    (forall o: Owner :: RowsFit(HeldBy(db, o), o)) && AnonFits(db.anon)
  }

  lemma SplitNIsSplitSlash(pattern: string)
    requires |SplitN(pattern, '/', 2)| == 2
    ensures SplitSlash(pattern) == (SplitN(pattern, '/', 2)[0], SplitN(pattern, '/', 2)[1])
  {}

  lemma ValidAddIsGrantable(pattern: string)
    requires ValidateAddPattern(pattern)
    ensures Grantable(pattern)
  {
    hide SplitN, SplitSlash;
    SplitNIsSplitSlash(pattern);
  }

  lemma WellFormedHasTwoParts(pattern: string)
    requires WellFormedPattern(pattern)
    ensures TwoParts(pattern)
  {
    hide SplitN, SplitSlash;
    SplitNIsSplitSlash(pattern);
  }

  lemma RowsOfFit(entries: seq<Entry>, firstId: nat, owner: Owner)
    requires EntriesFit(entries, owner)
    ensures RowsFit(RowsOf(entries, firstId), owner)
  {
    hide TwoParts, Grantable;
  }

  lemma MetaIsGrantable(resource: string)
    requires resource != ""
    ensures Grantable("_" + "/" + resource)
  {
    SplitSlashConcat("_", resource);
  }

  lemma BootstrapPatterns()
    ensures forall e <- BOOTSTRAP_GRANTS :: e.pattern == "_/users" || e.pattern == "_/sa" || e.pattern == "_/ns"
  {}

  lemma BootstrapFits(owner: Owner)
    ensures EntriesFit(BOOTSTRAP_GRANTS, owner)
  {
    hide TwoParts, SplitSlash, BOOTSTRAP_GRANTS;
    MetaIsGrantable("users");
    MetaIsGrantable("sa");
    MetaIsGrantable("ns");
    assert "_" + "/" + "users" == "_/users" && "_" + "/" + "sa" == "_/sa" && "_" + "/" + "ns" == "_/ns";
    BootstrapPatterns();
  }

  lemma {:induction false} FilteredFits(specs: seq<PermissionSpec>, owner: Owner)
    ensures EntriesFit(Filtered(specs), owner)
  {
    FilteredIsCanonical(specs);
    forall e | e in Filtered(specs) ensures TwoParts(e.pattern) && Grantable(e.pattern) {
      var a, b :| Normalize.IsSegment(a) && Normalize.IsSegment(b) && e.pattern == a + "/" + b && a != "*" && a != "_";
      SplitSlashConcat(a, b);
    }
  }

  // ---------------------------------------------------------------------- every request

  lemma SetHeldFits(db: Db, owner: Owner, rows: seq<Permission>)
    requires PatternsFit(db) && RowsFit(rows, owner)
    ensures PatternsFit(SetHeld(db, owner, rows))
  {
    hide RowsFit, AnonFits;
    var db' := SetHeld(db, owner, rows);
    forall o: Owner ensures RowsFit(HeldBy(db', o), o) { assert RowsFit(HeldBy(db, o), o); }
  }

  lemma SameRowsFit(db: Db, db': Db)
    requires PatternsFit(db) && db'.held == db.held && db'.anon == db.anon
    ensures PatternsFit(db')
  {
    hide RowsFit, AnonFits;
    forall o: Owner ensures RowsFit(HeldBy(db', o), o) { assert RowsFit(HeldBy(db, o), o); }
  }

  /** Owners that disappear take their rows with them. */
  lemma FewerOwnersFit(db: Db, db': Db)
    requires PatternsFit(db) && db'.anon == db.anon
    requires forall o <- db'.held :: o in db.held && db'.held[o] == db.held[o]
    ensures PatternsFit(db')
  {
    hide RowFits, AnonFits;
    assert forall o: Owner :: HeldBy(db', o) == HeldBy(db, o) || HeldBy(db', o) == [];
  }

  lemma {:induction false} GrantAllFits(db: Db, owner: Owner, entries: seq<Entry>, writes: nat)
    requires PatternsFit(db) && EntriesFit(entries, owner)
    ensures PatternsFit(GrantAll(db, owner, entries, writes).0)
    decreases |entries|
  {
    hide PatternsFit, TwoParts, Grantable;
    if entries != [] && writes > 0 {
      var db1 := db.(nextId := db.nextId + 1);
      SameRowsFit(db, db1);
      if writes > 1 {
        var p := NewPermission(db.nextId, entries[0].pattern, entries[0].verb, entries[0].expires);
        var rows := HeldBy(db1, owner) + [p];
        HeldFits(db1, owner);
        SetHeldFits(db1, owner, rows);
        GrantAllFits(SetHeld(db1, owner, rows), owner, entries[1..], writes - 2);
      }
    }
  }

  lemma HeldFits(db: Db, owner: Owner)
    requires PatternsFit(db)
    ensures RowsFit(HeldBy(db, owner), owner)
  {}

  lemma GrantFits(db: Db, principal: string, entries: seq<Entry>, writes: nat)
    requires PatternsFit(db)
    ensures PatternsFit(Grant(db, principal, entries, writes).0)
  {
    hide PatternsFit, GrantAll, TargetOf, ValidateAddPattern, Grantable, TwoParts;
    var owner := TargetOf(db, principal).0;
    if owner.Some? && forall e <- entries :: ValidateAddPattern(e.pattern) {
      ValidEntriesFit(entries, owner.value);
      GrantAllFits(db, owner.value, entries, writes);
    }
  }

  lemma ValidEntriesFit(entries: seq<Entry>, owner: Owner)
    requires forall e <- entries :: ValidateAddPattern(e.pattern)
    ensures EntriesFit(entries, owner) && forall e <- entries :: Grantable(e.pattern)
  {
    hide ValidateAddPattern, TwoParts;
    forall e | e in entries ensures Grantable(e.pattern) && TwoParts(e.pattern) { ValidAddIsGrantable(e.pattern); }
  }

  lemma RevokeFits(db: Db, principal: string, entries: seq<Entry>, writes: nat)
    requires PatternsFit(db)
    ensures PatternsFit(Revoke(db, principal, entries, writes).0)
  {
    hide PatternsFit, RevokeAll, TargetOf, ValidateDeletePattern, RowFits, Surviving;
    var owner := TargetOf(db, principal).0;
    if owner.Some? {
      RevokeAllIsExact(HeldBy(db, owner.value), entries, writes);
      HeldFits(db, owner.value);
      SetHeldFits(db, owner.value, RevokeAll(HeldBy(db, owner.value), entries, writes).0);
    }
  }

  lemma CreateUserFits(db: Db, name: string, pass: string, bootstrap: bool, writes: nat)
    requires PatternsFit(db)
    ensures PatternsFit(CreateUser(db, name, pass, bootstrap, writes).0)
  {
    hide PatternsFit, GrantAll, BOOTSTRAP_GRANTS, EntriesFit;
    if writes > 0 {
      SameRowsFit(db, InsertUser(db, name, pass));
      BootstrapFits(OfUser(db.nextId));
      GrantAllFits(InsertUser(db, name, pass), OfUser(db.nextId), BOOTSTRAP_GRANTS, writes - 1);
    }
  }

  lemma {:induction false} WithoutAnonIsLess(rows: seq<AnonPermission>, id: nat)
    ensures forall a <- WithoutAnon(rows, id) :: a in rows
  {
    if rows != [] { WithoutAnonIsLess(rows[1..], id); }
  }

  lemma AnonRowsFit(entries: seq<Entry>, firstId: nat)
    requires forall e <- entries :: ValidateAddPattern(e.pattern)
    ensures AnonFits(AnonRows(entries, firstId))
  {
    hide ValidateAddPattern, Grantable;
    ValidEntriesFit(entries, OfUser(0));
  }

  /** New anonymous rows that fit, beside the old ones. */
  lemma MoreAnonFits(db: Db, rows: seq<AnonPermission>, next: nat)
    requires PatternsFit(db) && AnonFits(rows)
    ensures PatternsFit(db.(anon := db.anon + rows, nextId := next))
  {
    hide Grantable, RowsFit;
    var db' := db.(anon := db.anon + rows, nextId := next);
    forall o: Owner ensures RowsFit(HeldBy(db', o), o) { assert RowsFit(HeldBy(db, o), o); }
  }

  lemma AddAnonFits(db: Db, entries: seq<Entry>, writes: nat)
    requires PatternsFit(db)
    ensures PatternsFit(AddAnon(db, entries, writes).0)
  {
    hide ValidateAddPattern, PatternsFit, AnonFits, AnonRows;
    var stored := if writes < |entries| then entries[..writes] else entries;
    if forall e <- entries :: ValidateAddPattern(e.pattern) {
      AnonRowsFit(stored, db.nextId);
      MoreAnonFits(db, AnonRows(stored, db.nextId), db.nextId + |stored|);
    }
  }

  lemma DeleteAnonFits(db: Db, id: nat, writes: nat)
    requires PatternsFit(db)
    ensures PatternsFit(DeleteAnon(db, id, writes).0)
  {
    hide Grantable, RowsFit;
    WithoutAnonIsLess(db.anon, id);
    assert forall o: Owner :: HeldBy(DeleteAnon(db, id, writes).0, o) == HeldBy(db, o);
  }

  lemma DeleteUserFits(db: Db, name: string, writes: nat)
    requires PatternsFit(db)
    ensures PatternsFit(DeleteUser(db, name, writes).0)
  {
    hide PatternsFit, FindUser;
    var id := FindUser(db, name);
    if id.Some? { FewerOwnersFit(db, DropUser(db, id.value)); }
  }

  lemma AdminFits(db: Db, r: Request, bootstrap: bool, writes: nat)
    requires PatternsFit(db) && AdminVerb(r).Some?
    ensures PatternsFit(HandleAdmin(db, r, bootstrap, writes).0)
  {
    hide PatternsFit, CreateUser, DeleteUser, Grant, Revoke, AddAnon, DeleteAnon;
    match r
    case CreateUserRequest(name, pass) => CreateUserFits(db, name, pass, bootstrap, writes);
    case DeleteUserRequest(name) => DeleteUserFits(db, name, writes);
    case GrantRequest(principal, entries) => GrantFits(db, principal, entries, writes);
    case RevokeRequest(principal, entries) => RevokeFits(db, principal, entries, writes);
    case AddAnonRequest(entries) => AddAnonFits(db, entries, writes);
    case DeleteAnonRequest(id) => DeleteAnonFits(db, id, writes);
  }

  lemma InsertCapabilityFits(db: Db, raws: Raws, c: Capability, entries: seq<Entry>)
    requires PatternsFit(db) && EntriesFit(entries, OfToken(db.nextId))
    ensures PatternsFit(InsertCapability(Draw(db, raws), c, entries))
  {
    hide PatternsFit, RowsFit, EntriesFit, RowsOf;
    var rows := RowsOf(entries, db.nextId + 1);
    RowsOfFit(entries, db.nextId + 1, OfToken(db.nextId));
    SetHeldFits(db, OfToken(db.nextId), rows);
    SameRowsFit(SetHeld(db, OfToken(db.nextId), rows), InsertCapability(Draw(db, raws), c, entries));
  }

  lemma OwnFits(db: Db, userId: nat, r: Request, raws: Raws, writes: nat)
    requires PatternsFit(db) && userId in db.users
    ensures PatternsFit(HandleOwn(db, userId, r, raws, writes).0)
  {
    hide PatternsFit, InsertCapability, DelegationRefusal, WellFormedPattern, MayDelegate, TwoParts;
    var db' := HandleOwn(db, userId, r, raws, writes).0;
    if db'.held == db.held && db'.anon == db.anon {
      SameRowsFit(db, db');
    } else if r.IssueCapabilityRequest? {
      RefusalDecides(db, User(db.users[userId].name), r.entries);
      forall e | e in r.entries ensures TwoParts(e.pattern) {
        var i :| 0 <= i < |r.entries| && r.entries[i] == e;
        WellFormedHasTwoParts(r.entries[i].pattern);
      }
      InsertCapabilityFits(db, raws, Capability(Some(userId), HashToken(CAPABILITY_PREFIX + raws.a), None), r.entries);
    } else {
      FewerOwnersFit(db, db');
    }
  }

  lemma AnonTokenFits(db: Db, ttl: Time, raws: Raws, writes: nat)
    requires PatternsFit(db)
    ensures PatternsFit(AnonToken(db, ttl, raws, writes).0)
  {
    hide InsertCapability, RowsFit, SplitSlash;
    var db' := AnonToken(db, ttl, raws, writes).0;
    var rows := LiveAnon(db.anon, db.clock);
    if db'.held == db.held && db'.anon == db.anon {
      SameRowsFit(db, db');
    } else {
      var entries := AnonEntries(rows);
      forall e | e in entries ensures TwoParts(e.pattern) {
        var i :| 0 <= i < |entries| && entries[i] == e;
        assert rows[i] in rows;
      }
      InsertCapabilityFits(db, raws, Capability(None, HashToken(CAPABILITY_PREFIX + raws.a), Some(raws.at + ttl)),
                           entries);
    }
  }

  lemma HandleFits(db: Db, who: Identity, bearer: string, r: Request, raws: Raws, writes: nat)
    requires PatternsFit(db)
    ensures PatternsFit(Handle(db, who, bearer, r, raws, writes).0)
  {
    hide PatternsFit, HandleAdmin, HandleOwn, RequireMeta, FindSession, Refreshable;
    if AdminVerb(r).Some? {
      AdminFits(db, r, false, writes);
    } else if r.RefreshRequest? || r.LogoutRequest? {
      SameRowsFit(db, Handle(db, who, bearer, r, raws, writes).0);
    } else if UserOf(who).Some? && UserOf(who).value in db.users {
      OwnFits(db, UserOf(who).value, r, raws, writes);
    }
  }

  lemma ServeFits(db: Db, c: Context, bearer: string, r: Request)
    requires Sound(db) && Feasible(db, c) && PatternsFit(db)
    ensures PatternsFit(Serve(db, c, bearer, r).0)
  {
    hide Sound, Keeps, PatternsFit, HandleAdmin, Handle, Authenticate, AnonToken, FindUser;
    var db0 := Arrive(db, c);
    ArriveKeeps(db, c);
    KeptIsSound(db, db0);
    SameRowsFit(db, db0);
    if r.LoginRequest? {
      SameRowsFit(db0, Login(db0, r.name, r.pass, c.raws, c.writes).0);
    } else if r.AnonTokenRequest? {
      AnonTokenFits(db0, r.ttl, c.raws, c.writes);
    } else if IsBootstrap(c, bearer, r) {
      AdminFits(db0, r, true, c.writes);
    } else if bearer != "" {
      var (db1, who, left) := Authenticate(db0, bearer, c.review, c.writes);
      AuthenticateSessions(db0, bearer, c.review, c.writes, "");
      SameRowsFit(db0, db1);
      if who.Some? { HandleFits(db1, who.value, bearer, r, c.raws, left); }
    }
  }

  lemma SyncOneFits(db: Db, e: SaEntry, writes: nat)
    requires PatternsFit(db)
    ensures PatternsFit(SyncOne(db, e, writes).0)
  {
    hide PatternsFit, RowsFit, EntriesFit, RowsOf, Filtered, FindSa;
    var (db1, id, left) := GetOrCreateSa(db, e.namespace, e.name, writes);
    SameRowsFit(db, db1);
    if id.Some? && left > 0 {
      var entries := Filtered(e.permissions);
      FilteredFits(e.permissions, OfSa(id.value));
      RowsOfFit(entries, db1.nextId, OfSa(id.value));
      SetHeldFits(db1, OfSa(id.value), RowsOf(entries, db1.nextId));
      SameRowsFit(SetHeld(db1, OfSa(id.value), RowsOf(entries, db1.nextId)), ReplaceRows(db1, id.value, entries));
    }
  }

  lemma {:induction false} SyncFits(db: Db, entries: seq<SaEntry>, writes: seq<nat>)
    requires |writes| == |entries| && PatternsFit(db)
    ensures PatternsFit(ApplySync(db, entries, writes))
    decreases |entries|
  {
    hide PatternsFit, SyncOne;
    if entries != [] {
      SyncOneFits(db, entries[0], writes[0]);
      SyncFits(SyncOne(db, entries[0], writes[0]).0, entries[1..], writes[1..]);
    }
  }

  lemma {:induction false} RunFits(db: Db, events: seq<Event>)
    requires Sound(db) && PatternsFit(db) && FeasibleRun(db, events)
    ensures PatternsFit(Run(db, events))
    decreases |events|
  {
    hide Sound, Keeps, PatternsFit, Serve, ApplySync;
    if events != [] {
      var e := events[0];
      match e {
        case Call(c, bearer, r) => ServeFits(db, c, bearer, r);
        case Synchronise(entries, writes) => SyncFits(db, entries, writes);
      }
      EventKeeps(db, e);
      KeptIsSound(db, After(db, e));
      RunFits(After(db, e), events[1..]);
    }
  }

  lemma ReachableFits(clock: Time, events: seq<Event>)
    requires FeasibleRun(Initial(clock), events)
    ensures PatternsFit(Run(Initial(clock), events))
  {
    InitialIsSound(clock);
    RunFits(Initial(clock), events);
  }

  /** In every reachable state no user, service account or anonymous row is the shortcut; only
      capability tokens can hold it. */
  lemma OnlyTokensHoldAnything(clock: Time, events: seq<Event>, owner: Owner)
    requires FeasibleRun(Initial(clock), events)
    ensures var db := Run(Initial(clock), events);
            && (forall p <- HeldBy(db, owner) :: p.pattern == ANYTHING ==> owner.OfToken?)
            && (forall a <- db.anon :: a.pattern != ANYTHING)
  {
    hide Run, SplitSlash;
    ReachableFits(clock, events);
    SplitAnything();
    assert RowsFit(HeldBy(Run(Initial(clock), events), owner), owner);
  }

  /** In every reachable state whatever a principal's namespace index lists, a non-empty name in
      the namespace really has. */
  lemma ListedHasName(clock: Time, events: seq<Event>, owner: Owner, index: Index, now: Time, ns: string, v: Verb)
    requires FeasibleRun(Initial(clock), events)
    requires var db := Run(Initial(clock), events);
             IsIndex(index, HeldBy(db, owner), db.anon, now) && Listed(index, ns, v)
    ensures var db := Run(Initial(clock), events);
            exists name :: name != "" &&
              (Allows(HeldBy(db, owner), v, ns + "/" + name, now) || AnonAllows(db.anon, v, ns + "/" + name, now))
  {
    hide Run, SplitSlash, Allows, AnonAllows, WellFormedIndex;
    var db := Run(Initial(clock), events);
    ReachableFits(clock, events);
    assert RowsFit(HeldBy(db, owner), owner);
    IndexIsSound(index, HeldBy(db, owner), db.anon, now, ns, v);
  }

  // ------------------------------------------------------------- attenuation, exactly

  /** Whatever `Check` allows the token at `now`, it allows the principal. */
  ghost predicate Attenuated(db: Db, token: nat, issuer: Principal, now: Time) {
    forall verb: Verb, resource: string ::
      CheckPrincipal(db, Token(token), verb, resource, now) == Ok(true) ==>
      CheckPrincipal(db, issuer, verb, resource, now) == Ok(true)
  }

  lemma AttenuatedIsWithin(db: Db, token: nat, issuer: Principal, now: Time)
    requires PermissionsFor(db, issuer).Ok?
    ensures Attenuated(db, token, issuer, now) <==>
            WithinFully(HeldBy(db, OfToken(token)), PermissionsFor(db, issuer).value, now)
  {
    hide Allows, HeldBy, FindUser, FindSa;
    var rows, held := HeldBy(db, OfToken(token)), PermissionsFor(db, issuer).value;
    assert forall verb: Verb, resource: string ::
        CheckPrincipal(db, Token(token), verb, resource, now) == Ok(Allows(rows, verb, resource, now)) &&
        CheckPrincipal(db, issuer, verb, resource, now) == Ok(Allows(held, verb, resource, now));
  }

  /** The entry delegates the shortcut at `now`. */
  predicate DelegatesAnything(e: Entry, now: Time) {
    e.pattern == ANYTHING && now <= (if e.expires.Some? then e.expires.value else NO_EXPIRY)
  }

  lemma NoUserHoldsAnything(db: Db, userId: nat)
    requires PatternsFit(db)
    ensures forall q <- HeldBy(db, OfUser(userId)) :: q.pattern != ANYTHING
  {
    hide SplitSlash;
    SplitAnything();
    assert RowsFit(HeldBy(db, OfUser(userId)), OfUser(userId));
  }

  /** For a holder without the shortcut, the rows may not have it at all. */
  lemma ShortcutsHeldByUsers(entries: seq<Entry>, firstId: nat, held: seq<Permission>, now: Time)
    requires forall q <- held :: q.pattern != ANYTHING
    ensures ShortcutsHeld(RowsOf(entries, firstId), held, now) <==> forall e <- entries :: !DelegatesAnything(e, now)
  {
    hide RowsOf;
    var rows := RowsOf(entries, firstId);
    forall i | 0 <= i < |entries| ensures LiveAnything(rows[i], now) <==> DelegatesAnything(entries[i], now) {}
    if ShortcutsHeld(rows, held, now) {
      forall e | e in entries ensures !DelegatesAnything(e, now) {
        var i :| 0 <= i < |entries| && entries[i] == e;
        assert rows[i] in rows;
      }
    }
    if forall e <- entries :: !DelegatesAnything(e, now) {
      forall p | p in rows ensures !LiveAnything(p, now) {
        var i :| 0 <= i < |rows| && rows[i] == p;
        assert entries[i] in entries;
      }
    }
  }

  /** A reachable state in which a token has just been issued, and what is true of its issuer. */
  lemma IssuedInReach(clock: Time, before: seq<Event>, c: Context, bearer: string, entries: seq<Entry>)
    returns (uid: nat)
    requires FeasibleRun(Initial(clock), before)
    requires var db := Run(Initial(clock), before);
             Feasible(db, c) && Serve(db, c, bearer, IssueCapabilityRequest(entries)).1.Issued?
    ensures var db := Run(Initial(clock), before);
            var (db', answer) := Serve(db, c, bearer, IssueCapabilityRequest(entries));
            && Sound(db) && Sound(db') && PatternsFit(db') && OwnedBy(db', Firsts(db'))
            && Caller(db, c, bearer) == Some(uid) && uid in db.users
            && var token := ResolveCapability(db', answer.token, c.now);
               && token.Some? && token.value in db'.caps && token.value < db'.nextId
               && db'.caps[token.value].issuedBy == Some(uid)
               && HeldBy(db', OfToken(token.value)) == RowsOf(entries, token.value + 1)
  {
    hide Sound, Keeps, PatternsFit, OwnedBy, Firsts, Run, FeasibleRun, Serve, RowsOf, AddCapability, DelegationRefusal,
         ResolveCapability, Authenticate, Caller, HeldBy;
    var db := Run(Initial(clock), before);
    var r := IssueCapabilityRequest(entries);
    InitialIsSound(clock);
    RunKeeps(Initial(clock), before);
    KeptIsSound(Initial(clock), db);
    ReachableFits(clock, before);
    ServeFits(db, c, bearer, r);
    ServeKeeps(db, c, bearer, r);
    KeptIsSound(db, Serve(db, c, bearer, r).0);
    NobodyOwns(clock);
    RunKeepsFirsts(Initial(clock), before);
    EventKeepsFirsts(db, Call(c, bearer, r));
    IssueStores(db, c, bearer, entries);
    uid := Caller(db, c, bearer).value;
    var db1 := Authenticate(Arrive(db, c), bearer, c.review, c.writes).0;
    TokenResolves(db1, Some(uid), None, entries, c.raws, c.now);
    CapabilityIdBounded(db1, Some(uid), None, entries, c.raws);
  }

  lemma NobodyOwns(clock: Time)
    ensures OwnedBy(Initial(clock), Firsts(Initial(clock)))
  {}

  /** Attenuation at issue, with no gap set aside: in every reachable state, a token just issued is
      allowed only what its issuer is, for every verb and resource, if and only if it does not
      delegate the shortcut. */
  lemma AttenuatesExactly(clock: Time, before: seq<Event>, c: Context, bearer: string, entries: seq<Entry>)
    requires FeasibleRun(Initial(clock), before)
    requires var db := Run(Initial(clock), before);
             Feasible(db, c) && Serve(db, c, bearer, IssueCapabilityRequest(entries)).1.Issued?
    ensures var db := Run(Initial(clock), before);
            var (db', answer) := Serve(db, c, bearer, IssueCapabilityRequest(entries));
            && Caller(db, c, bearer).Some? && Caller(db, c, bearer).value in db.users
            && var token := ResolveCapability(db', answer.token, c.now);
               && token.Some?
               && (Attenuated(db', token.value, User(db.users[Caller(db, c, bearer).value].name), c.now) <==>
                   forall e <- entries :: !DelegatesAnything(e, c.now))
  {
    hide Sound, PatternsFit, OwnedBy, Firsts, Run, FeasibleRun, Serve, RowsOf, ResolveCapability, Caller, HeldBy,
         Attenuated, WithinFully, TextsPass, ShortcutsHeld, DelegatesAnything, PermissionsFor;
    var db := Run(Initial(clock), before);
    var (db', answer) := Serve(db, c, bearer, IssueCapabilityRequest(entries));
    var uid := IssuedInReach(clock, before, c, bearer, entries);
    var token := ResolveCapability(db', answer.token, c.now).value;
    var name := db.users[uid].name;
    ServeKeeps(db, c, bearer, IssueCapabilityRequest(entries));
    IssuerReadsOwn(db, db', token, uid);
    var held := HeldBy(db', OfUser(uid));
    IssuedTextsPass(db, c, bearer, entries, token + 1);
    AttenuatedIsWithin(db', token, User(name), c.now);
    PassingIsFullyWithin(RowsOf(entries, token + 1), held, c.now);
    NoUserHoldsAnything(db', uid);
    ShortcutsHeldByUsers(entries, token + 1, held, c.now);
  }

  /** The permissions read for the issuer's name are the issuer's own. */
  lemma IssuerReadsOwn(db: Db, later: Db, token: nat, uid: nat)
    requires Sound(db) && Keeps(db, later) && OwnedBy(later, Firsts(later))
    requires uid in db.users && token in later.caps && later.caps[token].issuedBy == Some(uid)
    ensures PermissionsFor(later, User(db.users[uid].name)) == Ok(HeldBy(later, OfUser(uid)))
  {
    hide OwnedBy, Firsts, PermissionsFor, HeldBy, SessionsSound, PatsSound, SasSound, HeldSound,
         SessionsEvolve, PatsEvolve, CapsEvolve;
    FirstReadsOwn(later, uid);
    assert later.users[uid] == db.users[uid];
  }

  /** Attenuation later on: at every later point of every run at which the token exists, it is
      allowed only what its issuer is then allowed if and only if the texts it was issued with pass
      the issuer's check then and it does not delegate the shortcut then. The permissions read for
      the issuer are the issuer's own; `x` is any character they do not use. */
  lemma AttenuatesExactlyLater(clock: Time, before: seq<Event>, c: Context, bearer: string, entries: seq<Entry>,
                               events: seq<Event>, now: Time, x: char)
    requires FeasibleRun(Initial(clock), before)
    requires var db := Run(Initial(clock), before);
             && Feasible(db, c) && Serve(db, c, bearer, IssueCapabilityRequest(entries)).1.Issued?
             && FeasibleRun(Serve(db, c, bearer, IssueCapabilityRequest(entries)).0, events)
    ensures var db := Run(Initial(clock), before);
            var (db', answer) := Serve(db, c, bearer, IssueCapabilityRequest(entries));
            var later := Run(db', events);
            && Caller(db, c, bearer).Some? && Caller(db, c, bearer).value in db.users
            && var uid := Caller(db, c, bearer).value;
               var token := ResolveCapability(db', answer.token, c.now);
               var held := HeldBy(later, OfUser(uid));
               && token.Some?
               && (token.value in later.caps && x != '/' && x != '*' && (forall q <- held :: x !in q.pattern) ==>
                   && PermissionsFor(later, User(db.users[uid].name)) == Ok(held)
                   && (Attenuated(later, token.value, User(db.users[uid].name), now) <==>
                       && TextsPass(RowsOf(entries, token.value + 1), held, now)
                       && forall e <- entries :: !DelegatesAnything(e, now)))
  {
    hide Sound, Keeps, PatternsFit, OwnedBy, Firsts, Run, FeasibleRun, Serve, RowsOf, ResolveCapability, Caller, HeldBy,
         Attenuated, WithinFully, TextsPass, ShortcutsHeld, DelegatesAnything, PermissionsFor;
    var db := Run(Initial(clock), before);
    var (db', answer) := Serve(db, c, bearer, IssueCapabilityRequest(entries));
    var later := Run(db', events);
    var uid := IssuedInReach(clock, before, c, bearer, entries);
    var token := ResolveCapability(db', answer.token, c.now).value;
    var name := db.users[uid].name;
    var held := HeldBy(later, OfUser(uid));
    TokensAreImmutable(db', events, token);
    RunKeeps(db', events);
    ServeKeeps(db, c, bearer, IssueCapabilityRequest(entries));
    KeepsTransitively(db, db', later);
    RunFits(db', events);
    RunKeepsFirsts(db', events);
    if token in later.caps && x != '/' && x != '*' && forall q <- held :: x !in q.pattern {
      IssuerReadsOwn(db, later, token, uid);
      AttenuatedIsWithin(later, token, User(name), now);
      FullyWithinExactly(RowsOf(entries, token + 1), held, now, x);
      NoUserHoldsAnything(later, uid);
      ShortcutsHeldByUsers(entries, token + 1, held, now);
    }
  }
}
