/** Who can change users, their permissions and the anonymous set (internal/auth/middleware.go,
    internal/api/admin.go). */
module Admin {
  import opened Strings
  import opened Glob
  import opened Principals
  import opened Authz
  import opened Access
  import opened AccessInvariants
  import opened Sync
  import opened Credentials
  import opened Locality
  import opened Revocation
  import opened Provenance

  /** The user table, what users hold, and the anonymous set are the same. */
  ghost predicate Untouched(db: Db, db': Db) {
    && db'.users == db.users && db'.anon == db.anon
    && forall id: nat :: HeldBy(db', OfUser(id)) == HeldBy(db, OfUser(id))
  }

  /** The bearer is the token of an unexpired session of a user who passes `Check` on `_/users`. */
  ghost predicate AdminSession(db: Db, c: Context, bearer: string, verb: Verb) {
    var user := ResolveSession(db, bearer, c.now);
    && SESSION_PREFIX <= bearer && user.Some?
    && CheckPrincipal(db, User(db.users[user.value].name), verb, MetaResource(META_USERS_RESOURCE), c.now) == Ok(true)
  }

  /** The request is an administrative one, and this is the verb it takes on `_/users`. */
  predicate Needs(r: Request, verb: Verb) {
    if r.DeleteUserRequest? then verb == Delete
    else
      && (r.CreateUserRequest? || r.GrantRequest? || r.RevokeRequest? || r.AddAnonRequest? || r.DeleteAnonRequest?)
      && verb == Write
  }

  lemma NeedsExactly(r: Request, verb: Verb)
    ensures AdminVerb(r) == Some(verb) <==> Needs(r, verb)
  {}

  /** The bearer is the token of an unexpired session whose user's own permissions grant the verb on
      `_/users`. */
  ghost predicate HoldsOnUsers(db: Db, bearer: string, verb: Verb, now: Time) {
    exists s <- db.sessions ::
      && db.sessions[s].tokenHash == Of(bearer) && now <= db.sessions[s].expiresAt
      && AnyGrants(HeldBy(db, OfUser(db.sessions[s].userId)), verb, "_/users", now)
  }

  lemma OwnTouchesNothing(db: Db, userId: nat, r: Request, raws: Raws, writes: nat)
    requires userId in db.users
    ensures Untouched(db, HandleOwn(db, userId, r, raws, writes).0)
  {
    hide HandleOwn, HeldBy;
    OwnIsLocal(db, userId, r, raws, writes);
  }

  lemma SessionsTouchNothing(db: Db, token: string, raws: Raws, writes: nat)
    ensures Untouched(db, Refresh(db, token, raws, writes).0)
    ensures Untouched(db, Logout(Tick(db, raws), token, writes).0)
  {
    hide FindSession, Refreshable;
  }

  lemma PublicTouchesNothing(db: Db, r: Request, c: Context)
    requires r.LoginRequest? || r.AnonTokenRequest?
    ensures r.LoginRequest? ==> Untouched(db, Login(db, r.name, r.pass, c.raws, c.writes).0)
    ensures r.AnonTokenRequest? ==> Untouched(db, AnonToken(db, r.ttl, c.raws, c.writes).0)
  {
    hide AnonToken, FindUser;
    if r.AnonTokenRequest? { AnonTokenIsLocal(db, r.ttl, c.raws, c.writes); }
  }

  /** Past authentication, only an administrator's request touches anything. */
  lemma HandleTouchesOnlyFor(db: Db, who: Identity, bearer: string, r: Request, raws: Raws, writes: nat)
    requires !Untouched(db, Handle(db, who, bearer, r, raws, writes).0)
    ensures AdminVerb(r).Some? && RequireMeta(db, who, AdminVerb(r).value, META_USERS_RESOURCE)
  {
    hide HandleAdmin, HandleOwn, RequireMeta, Untouched, Refresh, Logout;
    NothingTouched(db);
    if r.RefreshRequest? { SessionsTouchNothing(db, r.token, raws, writes); }
    if r.LogoutRequest? { SessionsTouchNothing(db, bearer, raws, writes); }
    if UserOf(who).Some? && UserOf(who).value in db.users { OwnTouchesNothing(db, UserOf(who).value, r, raws, writes); }
  }

  lemma NothingTouched(db: Db)
    ensures Untouched(db, db)
  {}

  /** Untouched by the clock and by a service account that appears. */
  lemma UntouchedBefore(a: Db, b: Db, c: Db)
    requires b == a.(clock := b.clock, sas := b.sas, nextId := b.nextId)
    ensures Untouched(b, c) ==> Untouched(a, c)
  {}

  /** Every request that changes the user table, a user's permissions or the anonymous set is an
      administrative one, made with an unexpired session whose user holds the verb on `_/users`,
      or is the creation of a user with a bootstrap token. */
  lemma AdminSafety(db: Db, c: Context, bearer: string, r: Request)
    requires Sound(db) && Feasible(db, c)
    requires !Untouched(db, Serve(db, c, bearer, r).0)
    ensures exists verb :: Needs(r, verb) &&
              (|| (r.CreateUserRequest? && bearer != "" && bearer in c.bootstrap)
               || AdminSession(db, c, bearer, verb))
    ensures AdminVerb(r).Some? && (IsBootstrap(c, bearer, r) || AdminSession(db, c, bearer, AdminVerb(r).value))
  {
    hide Sound, Keeps, Untouched, Login, AnonToken, Handle, HandleAdmin, Authenticate, AdminSession;
    var db0 := Arrive(db, c);
    UntouchedBefore(db, db0, Serve(db, c, bearer, r).0);
    NothingTouched(db0);
    if r.LoginRequest? || r.AnonTokenRequest? {
      PublicTouchesNothing(db0, r, c);
    } else if !IsBootstrap(c, bearer, r) && bearer != "" {
      var (db1, who, left) := Authenticate(db0, bearer, c.review, c.writes);
      ArriveKeeps(db, c);
      KeptIsSound(db, db0);
      AuthenticateSessions(db0, bearer, c.review, c.writes, "");
      UntouchedBefore(db0, db1, Serve(db, c, bearer, r).0);
      NothingTouched(db1);
      if who.Some? {
        HandleTouchesOnlyFor(db1, who.value, bearer, r, c.raws, left);
        AdminIsSession(db, c, bearer, AdminVerb(r).value);
      }
    }
    NeedsExactly(r, AdminVerb(r).value);
  }

  /** Passing the gate means having presented a session token. */
  lemma AdminIsSession(db: Db, c: Context, bearer: string, verb: Verb)
    requires Sound(db) && Feasible(db, c)
    requires var (db1, who, _) := Authenticate(Arrive(db, c), bearer, c.review, c.writes);
             who.Some? && RequireMeta(db1, who.value, verb, META_USERS_RESOURCE)
    ensures AdminSession(db, c, bearer, verb)
  {
    hide Allows, ResolvePat, ResolveCapability, GetOrCreateSa, MetaResource;
    var db0 := Arrive(db, c);
    assert ResolveSession(db0, bearer, c.now) == ResolveSession(db, bearer, c.now);
    assert forall name :: FindUser(db0, name) == FindUser(db, name);
  }

  /** In every reachable state the session's own user holds the verb: the permissions checked by
      name are that user's. */
  lemma AdminsHoldTheVerb(clock: Time, events: seq<Event>, c: Context, bearer: string, r: Request)
    requires FeasibleRun(Initial(clock), events) && Feasible(Run(Initial(clock), events), c)
    requires !Untouched(Run(Initial(clock), events), Serve(Run(Initial(clock), events), c, bearer, r).0)
    ensures exists verb :: Needs(r, verb) &&
              (|| (r.CreateUserRequest? && bearer != "" && bearer in c.bootstrap)
               || HoldsOnUsers(Run(Initial(clock), events), bearer, verb, c.now))
  {
    hide Run, Serve, Untouched, Sound, Keeps, Allows, AnyGrants, HeldBy, FindSession;
    var db := Run(Initial(clock), events);
    InitialIsSound(clock);
    RunKeeps(Initial(clock), events);
    KeptIsSound(Initial(clock), db);
    AdminSafety(db, c, bearer, r);
    if !IsBootstrap(c, bearer, r) {
      FoundSession(db, bearer);
      var s := FindSession(db, Of(bearer)).value;
      ResolvedHasCredential(db, bearer, c.now, db.sessions[s].userId);
      NamesLeadBack(clock, events, db.sessions[s].userId);
      assert MetaResource(META_USERS_RESOURCE) == "_/users";
      AllowsExactly(HeldBy(db, OfUser(db.sessions[s].userId)), AdminVerb(r).value, "_/users", c.now);
      assert HoldsOnUsers(db, bearer, AdminVerb(r).value, c.now);
    }
    NeedsExactly(r, AdminVerb(r).value);
  }

  // ------------------------------------------------------------------ read off the tables

  /** Deleting a user adds nobody, and leaves the others, what they hold and the anonymous set. */
  lemma DeletionOnlyRemoves(db: Db, name: string, writes: nat, id: nat)
    ensures var db' := DeleteUser(db, name, writes).0;
            && db'.anon == db.anon && (id in db'.users ==> id in db.users && db'.users[id] == db.users[id])
            && (id in db'.users ==> HeldBy(db', OfUser(id)) == HeldBy(db, OfUser(id)))
  {
    hide FindUser;
  }

  /** The other administrative requests remove nobody; a bootstrap changes nothing that is there. */
  lemma OthersOnlyAdd(db: Db, r: Request, bootstrap: bool, writes: nat, id: nat)
    requires Sound(db) && AdminVerb(r).Some? && !r.DeleteUserRequest?
    ensures var db' := HandleAdmin(db, r, bootstrap, writes).0;
            && (id in db.users ==> id in db'.users && db'.users[id] == db.users[id])
            && (r.CreateUserRequest? && id in db.users ==> HeldBy(db', OfUser(id)) == HeldBy(db, OfUser(id)))
            && (r.CreateUserRequest? ==> db'.anon == db.anon)
  {
    hide GrantAll, Revoke, AddAnon, DeleteAnon, TargetOf, SessionsSound, PatsSound, CapsSound, SasSound, HeldSound,
         BOOTSTRAP_GRANTS;
    match r
    case CreateUserRequest(name, pass) =>
      if writes > 0 { GrantAllIsLocal(InsertUser(db, name, pass), OfUser(db.nextId), BOOTSTRAP_GRANTS, writes - 1); }
    case GrantRequest(principal, entries) =>
      var owner := TargetOf(db, principal).0;
      if owner.Some? { GrantAllIsLocal(db, owner.value, entries, writes); }
    case RevokeRequest(principal, entries) => RevokeOnlyTakes(db, principal, entries, writes, OfUser(0), List, "", 0);
    case AddAnonRequest(entries) => AddAnonIsLocal(db, entries, writes); AnonKeepsUsers(db, entries, 0, writes);
    case DeleteAnonRequest(anon) => AnonKeepsUsers(db, [], anon, writes);
  }

  lemma AnonKeepsUsers(db: Db, entries: seq<Entry>, id: nat, writes: nat)
    ensures AddAnon(db, entries, writes).0.users == db.users && DeleteAnon(db, id, writes).0.users == db.users
  {
    hide AnonRows, WithoutAnon;
  }

  lemma SessionCostsNothing(db: Db, bearer: string, review: Option<(string, string)>, writes: nat)
    requires Authenticate(db, bearer, review, writes).1.Some? &&
             Authenticate(db, bearer, review, writes).1.value.ViaSession?
    ensures Authenticate(db, bearer, review, writes).0 == db && Authenticate(db, bearer, review, writes).2 == writes
  {
    hide ResolveSession, ResolvePat, ResolveCapability, GetOrCreateSa;
  }

  lemma GateIsForSessions(db: Db, who: Identity, verb: Verb)
    requires RequireMeta(db, who, verb, META_USERS_RESOURCE)
    ensures who.ViaSession?
  {}

  /** What a request that is not turned away at the door comes to. */
  lemma ServedAdmin(db: Db, c: Context, bearer: string, r: Request)
    returns (before: Db, bootstrap: bool, writes: nat)
    requires Sound(db) && Feasible(db, c) && AdminVerb(r).Some?
    ensures Sound(before) && before == db.(clock := before.clock, sas := before.sas, nextId := before.nextId)
    ensures var (db', answer) := Serve(db, c, bearer, r);
            || (db' == before && (answer == Rejected(Unauthorized) || answer == Rejected(Forbidden)))
            || (before == Arrive(db, c) && writes == c.writes &&
                (db', answer) == HandleAdmin(before, r, bootstrap, writes))
    ensures bootstrap <==> r.CreateUserRequest? && bearer != "" && bearer in c.bootstrap
  {
    hide Sound, Keeps, HandleAdmin, Authenticate, RequireMeta;
    var db0 := Arrive(db, c);
    ArriveKeeps(db, c);
    KeptIsSound(db, db0);
    if IsBootstrap(c, bearer, r) || bearer == "" {
      return db0, IsBootstrap(c, bearer, r), c.writes;
    }
    var (db1, who, left) := Authenticate(db0, bearer, c.review, c.writes);
    AuthenticateSessions(db0, bearer, c.review, c.writes, "");
    AuthenticateKeeps(db0, bearer, c.review, c.writes);
    KeptIsSound(db0, db1);
    if who.Some? && RequireMeta(db1, who.value, AdminVerb(r).value, META_USERS_RESOURCE) {
      GateIsForSessions(db1, who.value, AdminVerb(r).value);
      SessionCostsNothing(db0, bearer, c.review, c.writes);
    }
    return db1, false, left;
  }

  /** Which verb each change takes, read off the tables. Whoever removes a user holds Delete on
      `_/users`; whoever adds one holds Write there or presents a bootstrap token; whoever changes what
      a remaining user holds, or the anonymous set, holds Write; and no user row is ever altered. */
  lemma ChangesNeedVerbs(clock: Time, events: seq<Event>, c: Context, bearer: string, r: Request, id: nat)
    requires FeasibleRun(Initial(clock), events) && Feasible(Run(Initial(clock), events), c)
    ensures var db := Run(Initial(clock), events);
            var db' := Serve(db, c, bearer, r).0;
            && (id in db.users && id !in db'.users ==> HoldsOnUsers(db, bearer, Delete, c.now))
            && (id !in db.users && id in db'.users ==>
                  || HoldsOnUsers(db, bearer, Write, c.now)
                  || (r.CreateUserRequest? && bearer != "" && bearer in c.bootstrap))
            && (id in db.users && id in db'.users ==> db'.users[id] == db.users[id])
            && (id in db.users && id in db'.users && HeldBy(db', OfUser(id)) != HeldBy(db, OfUser(id)) ==>
                  HoldsOnUsers(db, bearer, Write, c.now))
            && (db'.anon != db.anon ==> HoldsOnUsers(db, bearer, Write, c.now))
  {
    hide Run, Serve, Sound, Keeps, HoldsOnUsers, HandleAdmin, HeldBy;
    var db := Run(Initial(clock), events);
    var db' := Serve(db, c, bearer, r).0;
    if !Untouched(db, db') {
      InitialIsSound(clock);
      RunKeeps(Initial(clock), events);
      KeptIsSound(Initial(clock), db);
      AdminsHoldTheVerb(clock, events, c, bearer, r);
      var verb :| Needs(r, verb);
      NeedsExactly(r, verb);
      var db1, bootstrap, writes := ServedAdmin(db, c, bearer, r);
      HeldSame(db, db1);
      if r.DeleteUserRequest? {
        DeletionOnlyRemoves(db1, r.name, writes, id);
        DeletesByName(db1, r, bootstrap, writes);
      } else {
        OthersOnlyAdd(db1, r, bootstrap, writes, id);
      }
    }
  }

  lemma DeletesByName(db: Db, r: Request, bootstrap: bool, writes: nat)
    requires r.DeleteUserRequest?
    ensures HandleAdmin(db, r, bootstrap, writes) == DeleteUser(db, r.name, writes)
  {}

  /** Behind the gate nothing is forbidden. */
  lemma AdminNeverForbids(db: Db, r: Request, bootstrap: bool, writes: nat)
    requires AdminVerb(r).Some?
    ensures HandleAdmin(db, r, bootstrap, writes).1 != Rejected(Forbidden)
  {
    hide GrantAll, RevokeAll, ParsePrincipal, FindUser, FindSa, DropUser;
  }

  /** The gate, exactly: an authenticated administrative request without a bootstrap token is answered
      Forbidden if and only if it does not come from an unexpired session whose own user is granted
      the verb on `_/users`. */
  lemma ForbiddenExactly(clock: Time, events: seq<Event>, c: Context, bearer: string, r: Request, verb: Verb)
    requires FeasibleRun(Initial(clock), events) && Feasible(Run(Initial(clock), events), c)
    requires Needs(r, verb) && bearer != "" && !(r.CreateUserRequest? && bearer in c.bootstrap)
    requires Authenticate(Arrive(Run(Initial(clock), events), c), bearer, c.review, c.writes).1.Some?
    ensures var db := Run(Initial(clock), events);
            Serve(db, c, bearer, r).1 == Rejected(Forbidden) <==> !HoldsOnUsers(db, bearer, verb, c.now)
  {
    hide Run, Sound, Keeps, HoldsOnUsers, HandleAdmin, Authenticate, RequireMeta;
    var db := Run(Initial(clock), events);
    var db0 := Arrive(db, c);
    InitialIsSound(clock);
    RunKeeps(Initial(clock), events);
    KeptIsSound(Initial(clock), db);
    NeedsExactly(r, verb);
    var (db1, who, left) := Authenticate(db0, bearer, c.review, c.writes);
    AdminNeverForbids(db1, r, false, left);
    GateExactly(clock, events, c, bearer, verb);
  }

  lemma GateExactly(clock: Time, events: seq<Event>, c: Context, bearer: string, verb: Verb)
    requires FeasibleRun(Initial(clock), events) && Feasible(Run(Initial(clock), events), c)
    requires Authenticate(Arrive(Run(Initial(clock), events), c), bearer, c.review, c.writes).1.Some?
    ensures var db := Run(Initial(clock), events);
            var (db1, who, _) := Authenticate(Arrive(db, c), bearer, c.review, c.writes);
            RequireMeta(db1, who.value, verb, META_USERS_RESOURCE) <==> HoldsOnUsers(db, bearer, verb, c.now)
  {
    hide Run, Sound, Keeps, Authenticate, HeldBy, AnyGrants, Allows, FindUser;
    var db := Run(Initial(clock), events);
    var db0 := Arrive(db, c);
    InitialIsSound(clock);
    RunKeeps(Initial(clock), events);
    KeptIsSound(Initial(clock), db);
    ArriveKeeps(db, c);
    KeptIsSound(db, db0);
    var (db1, who, left) := Authenticate(db0, bearer, c.review, c.writes);
    AuthenticateSessions(db0, bearer, c.review, c.writes, "");
    AuthenticateKeeps(db0, bearer, c.review, c.writes);
    KeptIsSound(db0, db1);
    assert MetaResource(META_USERS_RESOURCE) == "_/users";
    if who.value.ViaSession? {
      var u := who.value.userId;
      AuthenticatesExactly(db0, bearer, c.review, c.writes, u);
      var s :| s in db.sessions && db.sessions[s].tokenHash == Of(bearer) && c.now <= db.sessions[s].expiresAt
               && db.sessions[s].userId == u;
      OnlySession(db, bearer, s);
      NamesLeadBack(clock, events, u);
      FindUserSame(db, db1, db.users[u].name);
      HeldSame(db, db1);
      AllowsExactly(HeldBy(db, OfUser(u)), verb, "_/users", c.now);
    } else {
      forall s | s in db.sessions
        ensures !(db.sessions[s].tokenHash == Of(bearer) && c.now <= db.sessions[s].expiresAt)
      {
        AuthenticatesExactly(db0, bearer, c.review, c.writes, db.sessions[s].userId);
      }
    }
  }

  lemma OnlySession(db: Db, bearer: string, s: nat)
    requires Sound(db) && s in db.sessions && db.sessions[s].tokenHash == Of(bearer)
    ensures forall other <- db.sessions :: db.sessions[other].tokenHash == Of(bearer) ==> other == s
  {}

  // --------------------------------------------------------------------- over whole runs

  /** The event is an administrative request from an administrator's session, or a bootstrap. */
  ghost predicate Administers(db: Db, e: Event) {
    && e.Call?
    && exists verb :: Needs(e.r, verb) &&
         (|| (e.r.CreateUserRequest? && e.bearer != "" && e.bearer in e.c.bootstrap)
          || AdminSession(db, e.c, e.bearer, verb))
  }

  lemma EventAdministers(db: Db, e: Event)
    requires Sound(db) && FeasibleEvent(db, e)
    ensures Untouched(db, After(db, e)) || Administers(db, e)
  {
    hide Sound, Untouched, Serve, ApplySync, AdminSession;
    match e
    case Call(c, bearer, r) =>
      if !Untouched(db, Serve(db, c, bearer, r).0) { AdminSafety(db, c, bearer, r); }
    case Synchronise(entries, writes) => SyncTouchesNothing(db, entries, writes);
  }

  lemma UntouchedTransitively(a: Db, b: Db, c: Db)
    requires Untouched(a, b) && Untouched(b, c)
    ensures Untouched(a, c)
  {}

  /** If users, their permissions or the anonymous set differ between two points of a run, then an
      event between them was an administrator's or a bootstrap, in the state it was made in. */
  lemma {:induction false} RunsAreAdministered(db: Db, events: seq<Event>)
    requires Sound(db) && FeasibleRun(db, events)
    requires !Untouched(db, Run(db, events))
    ensures exists i ::
              0 <= i < |events| && FeasibleRun(db, events[..i]) && Administers(Run(db, events[..i]), events[i])
    decreases |events|
  {
    hide Sound, Keeps, Untouched, After, FeasibleEvent, Administers;
    NothingTouched(db);
    assert events != [];
    var e, rest := events[0], events[1..];
    if Administers(db, e) {
      assert events[..0] == [];
      assert Administers(Run(db, events[..0]), events[0]);
    } else {
      EventAdministers(db, e);
      var next := After(db, e);
      if Untouched(next, Run(next, rest)) { UntouchedTransitively(db, next, Run(next, rest)); }
      EventKeeps(db, e);
      KeptIsSound(db, next);
      RunsAreAdministered(next, rest);
      var i :| 0 <= i < |rest| && FeasibleRun(next, rest[..i]) && Administers(Run(next, rest[..i]), rest[i]);
      PrefixOfRun(db, events, i);
      assert Administers(Run(db, events[..i + 1]), events[i + 1]);
    }
  }

  lemma PrefixOfRun(db: Db, events: seq<Event>, i: nat)
    requires FeasibleRun(db, events) && i < |events| && FeasibleRun(After(db, events[0]), events[1..][..i])
    ensures FeasibleRun(db, events[..i + 1])
    ensures Run(db, events[..i + 1]) == Run(After(db, events[0]), events[1..][..i])
  {
    hide After, FeasibleEvent;
    assert events[..i + 1][1..] == events[1..][..i] && events[..i + 1][0] == events[0];
  }

  /** A bootstrapped user holds exactly the ten bootstrap permissions. */
  lemma BootstrapHolds(db: Db, name: string, pass: string, writes: nat)
    requires Sound(db) && CreateUser(db, name, pass, true, writes).1.Done?
    ensures HeldBy(CreateUser(db, name, pass, true, writes).0, OfUser(db.nextId)) ==
            RowsOf(BOOTSTRAP_GRANTS, db.nextId + 1)
  {
    hide GrantAll, RowsOf, BOOTSTRAP_GRANTS;
    GrantAllAppends(InsertUser(db, name, pass), OfUser(db.nextId), BOOTSTRAP_GRANTS, writes - 1);
    NewUserHoldsNothing(db, name, pass);
    assert [] + RowsOf(BOOTSTRAP_GRANTS, db.nextId + 1) == RowsOf(BOOTSTRAP_GRANTS, db.nextId + 1);
  }

  /** What the ten bootstrap permissions grant: every verb on `_/users` and `_/ns`, list and read on
      `_/sa`, and nothing anywhere else. */
  lemma BootstrapGrantsExactly(firstId: nat, verb: Verb, resource: string, now: Time)
    requires now <= NO_EXPIRY
    ensures AnyGrants(RowsOf(BOOTSTRAP_GRANTS, firstId), verb, resource, now) <==>
            || resource == "_/users" || resource == "_/ns"
            || (resource == "_/sa" && (verb == List || verb == Read))
  {
    hide RowsOf, InPatternLanguage;
    var rows := RowsOf(BOOTSTRAP_GRANTS, firstId);
    LiteralLanguage("users", resource);
    LiteralLanguage("ns", resource);
    LiteralLanguage("sa", resource);
    assert "_" + "/" + "users" == "_/users" && "_" + "/" + "ns" == "_/ns" && "_" + "/" + "sa" == "_/sa";
    forall i | 0 <= i < |rows|
      ensures Grants(rows[i], verb, resource, now) <==>
              BOOTSTRAP_GRANTS[i].verb == verb && BOOTSTRAP_GRANTS[i].pattern == resource
    {
      BootstrapPattern(i);
    }
    BootstrapHas(verb, resource);
    if i :| 0 <= i < |rows| && BOOTSTRAP_GRANTS[i].verb == verb && BOOTSTRAP_GRANTS[i].pattern == resource {
      assert rows[i] in rows;
    }
    if p :| p in rows && Grants(p, verb, resource, now) {
      var i :| 0 <= i < |rows| && rows[i] == p;
    }
  }

  lemma BootstrapPattern(i: nat)
    requires i < |BOOTSTRAP_GRANTS|
    ensures var p := BOOTSTRAP_GRANTS[i].pattern; p == "_/users" || p == "_/ns" || p == "_/sa"
    ensures BOOTSTRAP_GRANTS[i].expires.None?
  {}

  lemma BootstrapHas(verb: Verb, resource: string)
    ensures (exists i :: 0 <= i < |BOOTSTRAP_GRANTS| &&
               BOOTSTRAP_GRANTS[i].verb == verb && BOOTSTRAP_GRANTS[i].pattern == resource) <==>
            || resource == "_/users" || resource == "_/ns"
            || (resource == "_/sa" && (verb == List || verb == Read))
  {
    var g := BOOTSTRAP_GRANTS;
    assert g[0] == Entry(List, "_/users", None) && g[1] == Entry(Read, "_/users", None);
    assert g[2] == Entry(Write, "_/users", None) && g[3] == Entry(Delete, "_/users", None);
    assert g[4] == Entry(List, "_/sa", None) && g[5] == Entry(Read, "_/sa", None);
    assert g[6] == Entry(List, "_/ns", None) && g[7] == Entry(Read, "_/ns", None);
    assert g[8] == Entry(Write, "_/ns", None) && g[9] == Entry(Delete, "_/ns", None);
  }

  /** A pattern without stars has one resource in its language. */
  lemma LiteralLanguage(name: string, resource: string)
    requires '*' !in name && '/' !in name && name != ""
    ensures InPatternLanguage("_" + "/" + name, resource) <==> resource == "_" + "/" + name
  {
    var pattern := "_" + "/" + name;
    PatternDecidesLanguage(resource, pattern);
    SplitSlashConcat("_", name);
    assert pattern[0] == '_';
    PlainMatchIsEquality("_", SplitSlash(resource).0);
    PlainMatchIsEquality(name, SplitSlash(resource).1);
  }

  lemma NewUserHoldsNothing(db: Db, name: string, pass: string)
    requires Sound(db)
    ensures HeldBy(InsertUser(db, name, pass), OfUser(db.nextId)) == []
  {}

  // ------------------------------------------------------------------ nothing without bootstrap

  predicate Bootstraps(e: Event) {
    e.Call? && IsBootstrap(e.c, e.bearer, e.r)
  }

  predicate NoBootstrap(events: seq<Event>) {
    forall i :: 0 <= i < |events| ==> !Bootstraps(events[i])
  }

  lemma EventTouchesNothing(db: Db, e: Event)
    requires Sound(db) && FeasibleEvent(db, e) && !Bootstraps(e) && db.users == map[]
    ensures Untouched(db, After(db, e))
  {
    hide Sound, Untouched, Serve, ApplySync;
    EventAdministers(db, e);
  }

  lemma SyncTouchesNothing(db: Db, entries: seq<SaEntry>, writes: seq<nat>)
    requires |writes| == |entries|
    ensures Untouched(db, ApplySync(db, entries, writes))
  {
    hide ApplySync;
    SyncLeavesUsersAlone(db, entries, writes);
  }

  /** Until a bootstrap token is used there are no users and nothing is public, whatever else is
      requested or synchronised. */
  lemma {:induction false} NothingWithoutBootstrap(db: Db, events: seq<Event>)
    requires Sound(db) && FeasibleRun(db, events) && NoBootstrap(events)
    requires db.users == map[]
    ensures Untouched(db, Run(db, events))
    decreases |events|
  {
    hide Sound, Keeps, After, FeasibleEvent, Bootstraps;
    if events != [] {
      var next := After(db, events[0]);
      EventTouchesNothing(db, events[0]);
      EventKeeps(db, events[0]);
      KeptIsSound(db, next);
      NothingWithoutBootstrap(next, events[1..]);
    }
  }
}
