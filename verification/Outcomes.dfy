/** What each request about accounts and tokens answers, exactly, and what it leaves behind, in
    terms of the rows and of what checks then say (internal/auth/session.go, internal/api/tokens.go,
    internal/api/auth.go, internal/api/admin.go). */
module Outcomes {
  import opened Strings
  import opened Glob
  import opened Principals
  import opened Authz
  import opened Access
  import opened AccessInvariants
  import opened Credentials
  import opened Locality
  import opened Revocation
  import opened Delegation
  import Admin

  // ------------------------------------------------------------------------------ sessions

  /** Exactly one session is new, and the others but one are as they were. */
  ghost predicate OthersAreKept(db: Db, db': Db, gone: Option<nat>, made: nat) {
    && made !in db.sessions && made in db'.sessions
    && (forall id <- db'.sessions :: id == made || (id in db.sessions && db'.sessions[id] == db.sessions[id]))
    && (forall id <- db.sessions :: id in db'.sessions || Some(id) == gone)
    && (gone.Some? ==> gone.value !in db'.sessions)
  }

  lemma AddSessionKeepsOthers(db: Db, userId: nat, raws: Raws, gone: Option<nat>)
    requires Sound(db) && (gone.Some? ==> gone.value in db.sessions)
    ensures var db1 := AddSession(db, userId, raws);
            OthersAreKept(db, if gone.Some? then DeleteSession(db1, gone.value) else db1, gone, db.nextId)
  {
    hide PatsSound, CapsSound, SasSound, HeldSound;
  }

  /** A login succeeds exactly for the password of the first user of the name; its session token then
      speaks for that user, for fifteen minutes, and no other session is touched. */
  lemma LoginAnswers(db: Db, c: Context, bearer: string, name: string, pass: string, now: Time)
    requires Sound(db) && Feasible(db, c)
    ensures var (db', answer) := Serve(db, c, bearer, LoginRequest(name, pass));
            var u := FindUser(db, name);
            && (answer.Tokens? <==>
                name != "" && pass != "" && u.Some? && db.users[u.value].pass == pass && c.writes > 0)
            && (answer.Tokens? ==>
                  && ResolveSession(db', answer.session, now) ==
                       (if now <= c.raws.at + 15 * MINUTE then Some(u.value) else None)
                  && OthersAreKept(db, db', None, db.nextId))
            && (!answer.Tokens? ==>
                  && db'.sessions == db.sessions
                  && answer == Rejected(if name == "" || pass == "" then BadRequest else Unauthorized))
  {
    hide Sound, Keeps, ResolveSession, FindUser, OthersAreKept;
    var db0 := Arrive(db, c);
    ArriveKeeps(db, c);
    KeptIsSound(db, db0);
    FindUserSame(db, db0, name);
    var u := FindUser(db, name);
    if u.Some? {
      FoundUser(db, name);
      NewTokensWork(db0, u.value, c.raws, now);
      AddSessionKeepsOthers(db0, u.value, c.raws, None);
      OthersKeptSince(db, db0, AddSession(db0, u.value, c.raws), None, db.nextId);
    }
  }

  lemma FoundUser(db: Db, name: string)
    requires FindUser(db, name).Some?
    ensures var id := FindUser(db, name).value; id in db.users && db.users[id].name == name
  {}

  lemma OthersKeptSince(db: Db, db0: Db, db': Db, gone: Option<nat>, made: nat)
    requires db0.sessions == db.sessions && OthersAreKept(db0, db', gone, made)
    ensures OthersAreKept(db, db', gone, made)
  {}

  /** A refresh succeeds exactly for a refresh token some unexpired row stores; the new session is the
      same user's, the old row is gone, and no other session is touched. */
  lemma RefreshAnswers(db: Db, c: Context, bearer: string, token: string, id: nat, now: Time)
    requires Sound(db) && Feasible(db, c) && bearer != ""
    requires Authenticate(Arrive(db, c), bearer, c.review, c.writes).1.Some?
    ensures var (db', answer) := Serve(db, c, bearer, RefreshRequest(token));
            var left := Authenticate(Arrive(db, c), bearer, c.review, c.writes).2;
            && (id in db.sessions && db.sessions[id].refreshHash == Of(token) && c.now <= db.sessions[id].expiresAt ==>
                  && (answer.Tokens? <==> left >= 2)
                  && (answer.Tokens? ==>
                        && ResolveSession(db', answer.session, now) ==
                             (if now <= c.raws.at + 15 * MINUTE then Some(db.sessions[id].userId) else None)
                        && exists made :: OthersAreKept(db, db', Some(id), made)))
            && (answer.Tokens? ==> exists prior <- db.sessions ::
                  db.sessions[prior].refreshHash == Of(token) && c.now <= db.sessions[prior].expiresAt)
            && (!answer.Tokens? ==> answer == Rejected(if token == "" then BadRequest else Unauthorized))
  {
    hide Sound, Keeps, ResolveSession, Authenticate, Refreshable, OthersAreKept;
    var db0 := Arrive(db, c);
    ArriveKeeps(db, c);
    KeptIsSound(db, db0);
    var (db1, who, left) := Authenticate(db0, bearer, c.review, c.writes);
    AuthenticateKeeps(db0, bearer, c.review, c.writes);
    KeptIsSound(db0, db1);
    AuthenticateSessions(db0, bearer, c.review, c.writes, token);
    assert db1.(clock := c.now) == db1;
    RefreshResolvesExactly(db1, token, c.now, id);
    var prior := Refreshable(db1, token);
    if prior.Some? {
      RefreshableIsText(db1, token);
      RefreshResolvesExactly(db1, token, c.now, prior.value);
      RefreshedUser(db1, prior.value);
      var u := db1.sessions[prior.value].userId;
      NewTokensSurvive(db1, u, c.raws, prior.value, now);
      AddSessionKeepsOthers(db1, u, c.raws, Some(prior.value));
      OthersKeptSince(db, db1, DeleteSession(AddSession(db1, u, c.raws), prior.value), Some(prior.value), db1.nextId);
    }
  }

  lemma RefreshableIsText(db: Db, token: string)
    requires Refreshable(db, token).Some?
    ensures token != ""
  {}

  lemma RefreshedUser(db: Db, id: nat)
    requires Sound(db) && id in db.sessions
    ensures db.sessions[id].userId in db.users
  {
    assert SessionSound(db.sessions[id], db.users.Keys, db.used, db.clock);
  }

  /** Deleting the old session does not disturb the new one. */
  lemma NewTokensSurvive(db: Db, userId: nat, raws: Raws, prior: nat, now: Time)
    requires Sound(db) && userId in db.users && FreshRaws(db, raws) && prior in db.sessions
    ensures ResolveSession(DeleteSession(AddSession(db, userId, raws), prior), SESSION_PREFIX + raws.a, now) ==
            if now <= raws.at + 15 * MINUTE then Some(userId) else None
  {
    hide PatsSound, CapsSound, SasSound, HeldSound, Keeps;
    var db1 := AddSession(db, userId, raws);
    AddSessionKeeps(db, userId, raws);
    KeptIsSound(db, db1);
    DeleteSessionKeeps(db1, prior);
    KeptIsSound(db1, DeleteSession(db1, prior));
    FindsSession(DeleteSession(db1, prior), db.nextId);
  }

  /** A logout succeeds exactly for the token of an unexpired session, and touches no other. */
  lemma LogoutAnswers(db: Db, c: Context, bearer: string)
    requires Sound(db) && Feasible(db, c)
    ensures var (db', answer) := Serve(db, c, bearer, LogoutRequest);
            && (answer.Done? <==> c.writes > 0 && exists u :: SessionOf(db, bearer, c.now, u))
            && (!answer.Done? ==> answer == Rejected(Unauthorized))
            && (forall id <- db.sessions :: id in db'.sessions &&
                  (db.sessions[id].tokenHash != Of(bearer) || !answer.Done? ==> db'.sessions[id] == db.sessions[id]))
            && (forall id <- db'.sessions :: id in db.sessions)
  {
    hide Sound, Keeps, Authenticate, FindSession, SessionOf;
    var db0 := Arrive(db, c);
    ArriveKeeps(db, c);
    KeptIsSound(db, db0);
    var (db1, who, left) := Authenticate(db0, bearer, c.review, c.writes);
    AuthenticateKeeps(db0, bearer, c.review, c.writes);
    KeptIsSound(db0, db1);
    AuthenticateSessions(db0, bearer, c.review, c.writes, bearer);
    FindMore(db1, Tick(db1, c.raws), bearer);
    SessionCaller(db, c, bearer);
    if FindSession(db1, Of(bearer)).Some? { FoundSession(db1, bearer); }
  }

  /** Presenting a session token is authenticating by it. */
  lemma SessionCaller(db: Db, c: Context, bearer: string)
    requires Sound(db) && Feasible(db, c)
    ensures var (db1, who, left) := Authenticate(Arrive(db, c), bearer, c.review, c.writes);
            && ((exists u :: SessionOf(db, bearer, c.now, u)) <==> who.Some? && who.value.ViaSession?)
            && (SESSION_PREFIX <= bearer ==> left == c.writes && (who.Some? ==> who.value.ViaSession?))
            && (who.Some? && who.value.ViaSession? ==>
                  SESSION_PREFIX <= bearer && FindSession(db1, Of(bearer)).Some? && bearer != "")
  {
    hide Sound, Keeps, GetOrCreateSa, ResolvePat, ResolveCapability, LooksLikeJwt;
    var db0 := Arrive(db, c);
    ArriveKeeps(db, c);
    KeptIsSound(db, db0);
    var who := Authenticate(db0, bearer, c.review, c.writes).1;
    if u :| SessionOf(db, bearer, c.now, u) {
      assert SessionOf(db0, bearer, c.now, u);
      AuthenticatesExactly(db0, bearer, c.review, c.writes, u);
    }
    if who.Some? && who.value.ViaSession? {
      AuthenticatesExactly(db0, bearer, c.review, c.writes, who.value.userId);
      assert SessionOf(db, bearer, c.now, who.value.userId);
    }
  }

  // ---------------------------------------------------------------------- users' own tokens

  /** What a request for a user's own tokens comes to. */
  lemma OwnServed(db: Db, c: Context, bearer: string, r: Request)
    requires Sound(db) && Feasible(db, c)
    requires r.IssuePatRequest? || r.RevokePatRequest? || r.IssueCapabilityRequest? || r.RevokeCapabilityRequest?
    ensures var u := Caller(db, c, bearer);
            if u.None? then Serve(db, c, bearer, r).1 == Rejected(Unauthorized)
            else u.value in db.users &&
                 Serve(db, c, bearer, r) == HandleOwn(Arrive(db, c), u.value, r, c.raws, c.writes)
  {
    hide HandleOwn, GetOrCreateSa, ResolveSession, ResolvePat, ResolveCapability;
    CallerExists(db, c, bearer);
  }

  lemma CallerExists(db: Db, c: Context, bearer: string)
    ensures var (db1, who, left) := Authenticate(Arrive(db, c), bearer, c.review, c.writes);
            Caller(db, c, bearer).Some? ==>
              Caller(db, c, bearer).value in db.users && db1 == Arrive(db, c) && left == c.writes
  {
    hide FindSession, FindPat, FindCapability, GetOrCreateSa;
  }

  /** Who the caller is, exactly: the user of an unexpired session or personal token. */
  lemma CallerExactly(db: Db, c: Context, bearer: string, u: nat)
    requires Sound(db) && Feasible(db, c)
    ensures Caller(db, c, bearer) == Some(u) <==> SessionOf(db, bearer, c.now, u) || PatOf(db, bearer, c.now, u)
  {
    hide Sound, Keeps, Authenticate, SessionOf, PatOf, CapabilityOf;
    ArriveKeeps(db, c);
    KeptIsSound(db, Arrive(db, c));
    AuthenticatesExactly(Arrive(db, c), bearer, c.review, c.writes, u);
    SameCredentials(db, c, bearer, u);
  }

  lemma SameCredentials(db: Db, c: Context, bearer: string, u: nat)
    ensures SessionOf(Arrive(db, c), bearer, c.now, u) <==> SessionOf(db, bearer, c.now, u)
    ensures PatOf(Arrive(db, c), bearer, c.now, u) <==> PatOf(db, bearer, c.now, u)
  {}

  /** A personal token is issued exactly to a user, and speaks for that user until the expiry asked for
      and not after. */
  lemma PatIssueAnswers(db: Db, c: Context, bearer: string, expiry: Option<Time>, now: Time)
    requires Sound(db) && Feasible(db, c)
    ensures var (db', answer) := Serve(db, c, bearer, IssuePatRequest(expiry));
            var u := Caller(db, c, bearer);
            && (answer.Issued? <==> u.Some? && c.writes > 0)
            && (answer.Issued? ==>
                  ResolvePat(db', answer.token, now) == if expiry.None? || now <= expiry.value then u else None)
  {
    hide Sound, Keeps, Serve, Caller;
    var db0 := Arrive(db, c);
    ArriveKeeps(db, c);
    KeptIsSound(db, db0);
    OwnServed(db, c, bearer, IssuePatRequest(expiry));
    var u := Caller(db, c, bearer);
    if u.Some? {
      AddPatKeeps(db0, u.value, expiry, c.raws);
      KeptIsSound(db0, AddPat(db0, u.value, expiry, c.raws));
      FindsPat(AddPat(db0, u.value, expiry, c.raws), db0.nextId);
    }
  }

  /** After the events, if they can happen, the token is not accepted. */
  ghost predicate RefusedLater(db: Db, token: string, events: seq<Event>, now: Time) {
    FeasibleRun(db, events) && Run(db, events).clock <= now ==> !Accepted(Run(db, events), token, now)
  }

  /** A personal token is revoked exactly by its own user, and is then refused for ever. */
  lemma PatRevokeAnswers(db: Db, c: Context, bearer: string, id: nat, token: string, events: seq<Event>, now: Time)
    requires Sound(db) && Feasible(db, c)
    ensures var (db', answer) := Serve(db, c, bearer, RevokePatRequest(id));
            && answer == (if Caller(db, c, bearer).None? then Rejected(Unauthorized)
                          else if id !in db.pats then Rejected(NotFound)
                          else if Caller(db, c, bearer) != Some(db.pats[id].userId) then Rejected(Unauthorized)
                          else if c.writes == 0 then Rejected(Failed)
                          else Done)
            && (answer.Done? ==> db'.pats == db.pats - {id})
            && (answer.Done? && db.pats[id].hash == Of(token) ==> RefusedLater(db', token, events, now))
  {
    hide Sound, Keeps, Serve, Caller, Dead, Run, FeasibleRun, Accepted;
    var db0 := Arrive(db, c);
    ArriveKeeps(db, c);
    KeptIsSound(db, db0);
    OwnServed(db, c, bearer, RevokePatRequest(id));
    var (db', answer) := Serve(db, c, bearer, RevokePatRequest(id));
    if answer.Done? && db.pats[id].hash == Of(token) && FeasibleRun(db', events) && Run(db', events).clock <= now {
      DropPatKeeps(db0, id);
      KeptIsSound(db0, db');
      DropPatKills(db0, id, token);
      DeadForever(db', token, events, now);
    }
  }

  lemma DropPatKills(db: Db, id: nat, token: string)
    requires Sound(db) && id in db.pats && db.pats[id].hash == Of(token)
    ensures Dead(db.(pats := db.pats - {id}), token)
  {
    hide SessionsSound, CapsSound, SasSound, HeldSound, Known;
    assert StoredAs(db, token, PatKind);
    StoredOnlyAs(db, token, PatKind);
    KnownStays(db, db.(pats := db.pats - {id}), token);
  }

  /** A pattern with text on both sides of its first slash. */
  ghost predicate TwoSided(pattern: string) {
    exists ns, name :: Splits(pattern, ns, name) && ns != "" && name != ""
  }

  lemma WellFormedExactly(pattern: string)
    ensures WellFormedPattern(pattern) <==> TwoSided(pattern)
  {
    NoSlashNoSplit(pattern);
    if '/' in pattern {
      var ns, name := SplitSlash(pattern).0, SplitSlash(pattern).1;
      assert Splits(pattern, ns, name);
      SplitsOnce(pattern, ns, name);
    }
    forall ns, name | Splits(pattern, ns, name) ensures SplitN(pattern, '/', 2) == [ns, name] {
      SplitsOnce(pattern, ns, name);
    }
  }

  /** A capability token is issued exactly when there are entries, each with a pattern of two parts
      whose text the issuer's permissions grant with the entry's verb; it does not expire. */
  lemma CapabilityIssueAnswers(db: Db, c: Context, bearer: string, entries: seq<Entry>, now: Time)
    requires Sound(db) && Feasible(db, c) && Caller(db, c, bearer).Some?
    ensures Caller(db, c, bearer).value in db.users
    ensures var (db', answer) := Serve(db, c, bearer, IssueCapabilityRequest(entries));
            var issuer := PermissionsFor(db, User(db.users[Caller(db, c, bearer).value].name));
            && issuer.Ok?
            && (answer.Issued? <==>
                  && entries != [] && c.writes >= 1 + 2 * |entries|
                  && (forall e <- entries :: MayCarry(issuer.value, e, c.now)))
            && (answer.Issued? ==> ResolveCapability(db', answer.token, now) == Some(db.nextId))
  {
    hide Sound, Keeps, Serve, Caller, DelegationRefusal, InsertCapability, TwoSided, AnyGrants, WellFormedPattern,
         ResolveCapability, Allows;
    var db0 := Arrive(db, c);
    ArriveKeeps(db, c);
    KeptIsSound(db, db0);
    OwnServed(db, c, bearer, IssueCapabilityRequest(entries));
    var u := Caller(db, c, bearer).value;
    var name := db.users[u].name;
    FindUserSame(db, db0, name);
    UserIsFound(db, u);
    RefusalDecides(db0, User(name), entries);
    var held := PermissionsFor(db, User(name)).value;
    forall e | e in entries
      ensures WellFormedPattern(e.pattern) && MayDelegate(db0, User(name), e) <==>
              TwoSided(e.pattern) && AnyGrants(held, e.verb, e.pattern, c.now)
    {
      WellFormedExactly(e.pattern);
      AllowsExactly(held, e.verb, e.pattern, c.now);
    }
    assert forall i :: 0 <= i < |entries| ==> entries[i] in entries;
    TokenResolves(db0, Some(u), None, entries, c.raws, now);
  }

  /** The entry may be delegated by a holder of these permissions. */
  ghost predicate MayCarry(held: seq<Permission>, e: Entry, now: Time) {
    TwoSided(e.pattern) && AnyGrants(held, e.verb, e.pattern, now)
  }

  /** How an issue is refused: by the first entry that is malformed or not covered. */
  lemma CapabilityRefused(db: Db, c: Context, bearer: string, entries: seq<Entry>, i: nat)
    requires Sound(db) && Feasible(db, c) && Caller(db, c, bearer).Some? && i < |entries|
    ensures Caller(db, c, bearer).value in db.users
    ensures var issuer := PermissionsFor(db, User(db.users[Caller(db, c, bearer).value].name));
            && issuer.Ok?
            && ((forall e <- entries[..i] :: MayCarry(issuer.value, e, c.now)) ==>
                  && (!TwoSided(entries[i].pattern) ==>
                        Serve(db, c, bearer, IssueCapabilityRequest(entries)).1 == Rejected(BadRequest))
                  && (TwoSided(entries[i].pattern) && !MayCarry(issuer.value, entries[i], c.now) ==>
                        Serve(db, c, bearer, IssueCapabilityRequest(entries)).1 == Rejected(Unauthorized)))
  {
    hide Sound, Keeps, Serve, Caller, DelegationRefusal, InsertCapability, TwoSided, AnyGrants, WellFormedPattern,
         Allows;
    var db0 := Arrive(db, c);
    ArriveKeeps(db, c);
    KeptIsSound(db, db0);
    OwnServed(db, c, bearer, IssueCapabilityRequest(entries));
    var u := Caller(db, c, bearer).value;
    var name := db.users[u].name;
    FindUserSame(db, db0, name);
    UserIsFound(db, u);
    var held := PermissionsFor(db, User(name)).value;
    forall e: Entry
      ensures WellFormedPattern(e.pattern) <==> TwoSided(e.pattern)
      ensures MayDelegate(db0, User(name), e) <==> AnyGrants(held, e.verb, e.pattern, c.now)
    {
      WellFormedExactly(e.pattern);
      AllowsExactly(held, e.verb, e.pattern, c.now);
    }
    if forall e <- entries[..i] :: MayCarry(held, e, c.now) {
      assert forall j :: 0 <= j < i ==> entries[j] in entries[..i];
      FirstRefusal(db0, User(name), entries, i);
    }
  }

  lemma {:induction false} FirstRefusal(db: Db, issuer: Principal, entries: seq<Entry>, i: nat)
    requires i < |entries|
    requires forall j :: 0 <= j < i ==> WellFormedPattern(entries[j].pattern) && MayDelegate(db, issuer, entries[j])
    ensures !WellFormedPattern(entries[i].pattern) ==> DelegationRefusal(db, issuer, entries) == Some(BadRequest)
    ensures WellFormedPattern(entries[i].pattern) && !MayDelegate(db, issuer, entries[i]) ==>
            DelegationRefusal(db, issuer, entries) == Some(Unauthorized)
    decreases i
  {
    hide WellFormedPattern, MayDelegate;
    if i > 0 {
      assert forall j :: 0 <= j < |entries| - 1 ==> entries[1..][j] == entries[j + 1];
      FirstRefusal(db, issuer, entries[1..], i - 1);
    }
  }

  lemma UserIsFound(db: Db, u: nat)
    requires Sound(db) && u in db.users
    ensures FindUser(db, db.users[u].name).Some?
  {}

  /** A capability token is revoked exactly by its issuer, and is then refused for ever. */
  lemma CapabilityRevokeAnswers(db: Db, c: Context, bearer: string, id: nat, token: string, events: seq<Event>,
                                now: Time)
    requires Sound(db) && Feasible(db, c)
    ensures var (db', answer) := Serve(db, c, bearer, RevokeCapabilityRequest(id));
            var u := Caller(db, c, bearer);
            && answer == (if u.None? then Rejected(Unauthorized)
                          else if id !in db.caps then Rejected(NotFound)
                          else if db.caps[id].issuedBy != u then Rejected(Unauthorized)
                          else if c.writes == 0 then Rejected(Failed)
                          else Done)
            && (answer.Done? ==> db'.caps == db.caps - {id})
            && (answer.Done? && db.caps[id].hash == Of(token) ==> RefusedLater(db', token, events, now))
  {
    hide Sound, Keeps, Serve, Caller, Dead, Run, FeasibleRun, Accepted;
    var db0 := Arrive(db, c);
    ArriveKeeps(db, c);
    KeptIsSound(db, db0);
    OwnServed(db, c, bearer, RevokeCapabilityRequest(id));
    var (db', answer) := Serve(db, c, bearer, RevokeCapabilityRequest(id));
    if answer.Done? && db.caps[id].hash == Of(token) && FeasibleRun(db', events) && Run(db', events).clock <= now {
      DropCapabilitiesKeeps(db0, {id});
      KeptIsSound(db0, db');
      DropCapabilityKills(db0, id, token);
      DeadForever(db', token, events, now);
    }
  }

  lemma DropCapabilityKills(db: Db, id: nat, token: string)
    requires Sound(db) && id in db.caps && db.caps[id].hash == Of(token)
    ensures Dead(DropCapabilities(db, {id}), token)
  {
    hide SessionsSound, PatsSound, SasSound, HeldSound, Known;
    assert StoredAs(db, token, CapabilityKind);
    StoredOnlyAs(db, token, CapabilityKind);
    KnownStays(db, DropCapabilities(db, {id}), token);
  }

  /** An anonymous token is issued exactly when some anonymous permission is in force, and is good for
      the time to live from the reading of the clock it was made with. */
  lemma AnonTokenAnswers(db: Db, c: Context, bearer: string, ttl: Time, now: Time)
    requires Sound(db) && Feasible(db, c)
    ensures var (db', answer) := Serve(db, c, bearer, AnonTokenRequest(ttl));
            && (answer.Issued? <==>
                  && (exists a <- db.anon :: a.expires.None? || c.now < a.expires.value)
                  && c.writes >= 1 + 2 * |LiveAnon(db.anon, c.now)|)
            && (answer == Rejected(Unavailable) <==> forall a <- db.anon :: a.expires.Some? && a.expires.value <= c.now)
            && (answer.Issued? ==>
                  ResolveCapability(db', answer.token, now) ==
                  if now <= c.raws.at + ttl then Some(db.nextId) else None)
  {
    hide Sound, Keeps, InsertCapability, AnonEntries, ResolveCapability;
    var db0 := Arrive(db, c);
    ArriveKeeps(db, c);
    KeptIsSound(db, db0);
    var live := LiveAnon(db.anon, c.now);
    assert live != [] <==> exists a <- db.anon :: AnonLive(a, c.now) by {
      if live != [] { assert live[0] in live; }
    }
    TokenExpires(db0, Some(c.raws.at + ttl), AnonEntries(live), c.raws, now);
  }

  lemma TokenExpires(db: Db, expires: Option<Time>, entries: seq<Entry>, raws: Raws, now: Time)
    requires Sound(db) && FreshRaws(db, raws) && expires.Some?
    ensures ResolveCapability(AddCapability(db, None, expires, entries, raws), CAPABILITY_PREFIX + raws.a, now) ==
            if now <= expires.value then Some(db.nextId) else None
  {
    hide Sound, Keeps, RowsOf;
    var db' := AddCapability(db, None, expires, entries, raws);
    AddCapabilityKeeps(db, None, expires, entries, raws);
    KeptIsSound(db, db');
    FindsCapability(db', db.nextId);
  }

  // ------------------------------------------------------------------------ administration

  /** Whose rows are read for a principal. */
  function ReadOwner(db: Db, p: Principal): Option<Owner> {
    match p
    case User(name) => var id := FindUser(db, name); if id.None? then None else Some(OfUser(id.value))
    case ServiceAccount(ns, name) => var id := FindSa(db, ns, name); if id.None? then None else Some(OfSa(id.value))
    case Token(id) => Some(OfToken(id))
  }

  /** It does not change while the users and accounts do not. */
  lemma ReadsSame(db: Db, db': Db, p: Principal)
    requires Sound(db) && db'.users == db.users && db'.sas == db.sas && db.nextId <= db'.nextId
    ensures ReadOwner(db', p) == ReadOwner(db, p)
    ensures PermissionsFor(db', p) ==
            if ReadOwner(db, p).None? then Err else Ok(HeldBy(db', ReadOwner(db, p).value))
  {
    hide Sound;
    match p
    case User(name) => FindUserSame(db, db', name);
    case ServiceAccount(ns, name) => FindSaStays(db, db', ns, name);
    case Token(_) =>
  }

  /** Different principals read different rows. */
  lemma OwnersDiffer(db: Db, p: Principal, q: Principal)
    requires p != q && ReadOwner(db, p).Some? && ReadOwner(db, q).Some?
    ensures ReadOwner(db, p) != ReadOwner(db, q)
  {}

  /** What an entry gives, once granted. */
  ghost predicate Gives(e: Entry, verb: Verb, resource: string, now: Time) {
    && e.verb == verb && now <= (if e.expires.Some? then e.expires.value else NO_EXPIRY)
    && InPatternLanguage(e.pattern, resource)
  }

  lemma GrantedRowsGive(rows: seq<Permission>, entries: seq<Entry>, firstId: nat, verb: Verb, resource: string,
                        now: Time)
    ensures AnyGrants(rows + RowsOf(entries, firstId), verb, resource, now) <==>
            AnyGrants(rows, verb, resource, now) || exists e <- entries :: Gives(e, verb, resource, now)
  {
    hide InPatternLanguage;
    var new_ := RowsOf(entries, firstId);
    assert forall p :: p in rows + new_ <==> p in rows || p in new_;
    forall i | 0 <= i < |entries|
      ensures Grants(new_[i], verb, resource, now) <==> Gives(entries[i], verb, resource, now)
    {}
    if e :| e in entries && Gives(e, verb, resource, now) {
      var i :| 0 <= i < |entries| && entries[i] == e;
      assert new_[i] in new_;
    }
    if p :| p in new_ && Grants(p, verb, resource, now) {
      var i :| 0 <= i < |new_| && new_[i] == p;
      assert entries[i] in entries;
    }
  }

  /** A grant succeeds exactly for valid patterns and a known principal. */
  lemma GrantAnswers(db: Db, p: Principal, entries: seq<Entry>, writes: nat)
    requires Nameable(p)
    ensures Grant(db, Show(p), entries, writes).1 ==
            if entries == [] || exists e <- entries :: !ValidateAddPattern(e.pattern) then Rejected(BadRequest)
            else if PermissionsFor(db, p).Err? then Rejected(NotFound)
            else if 2 * |entries| <= writes then Done
            else Rejected(Failed)
  {
    hide GrantAll, TargetOf, PermissionsFor, ParsePrincipal, Show, ValidateAddPattern;
    TargetReads(db, db, p);
    var owner := TargetOf(db, Show(p)).0;
    if owner.Some? { GrantAllSucceeds(db, owner.value, entries, writes); }
  }

  lemma TargetIsReadOwner(db: Db, p: Principal)
    requires Nameable(p)
    ensures TargetOf(db, Show(p)).0 == ReadOwner(db, p) && ParsePrincipal(Show(p)) == Ok(p)
  {
    hide ParsePrincipal, Show;
    ParseOfShow(p);
  }

  /** What a grant that succeeded has changed: the principal named is granted what it was and what the
      entries give, and every other principal exactly what it was. */
  lemma GrantEffect(db: Db, c: Context, bearer: string, p: Principal, entries: seq<Entry>,
                    q: Principal, verb: Verb, resource: string, now: Time)
    requires Sound(db) && Feasible(db, c) && Nameable(p)
    requires Serve(db, c, bearer, GrantRequest(Show(p), entries)).1.Done?
    ensures var db' := Serve(db, c, bearer, GrantRequest(Show(p), entries)).0;
            && PermissionsFor(db, p).Ok? && PermissionsFor(db', p).Ok?
            && (AnyGrants(PermissionsFor(db', p).value, verb, resource, now) <==>
                  || AnyGrants(PermissionsFor(db, p).value, verb, resource, now)
                  || exists e <- entries :: Gives(e, verb, resource, now))
            && (q != p ==> PermissionsFor(db', q) == PermissionsFor(db, q))
            && db'.anon == db.anon
  {
    hide Sound, Serve, GrantAll, RowsOf, PermissionsFor, AnyGrants, Gives, TargetOf, ReadOwner, Show, ParsePrincipal,
         ValidateAddPattern, HeldBy;
    var r := GrantRequest(Show(p), entries);
    var before, bootstrap, writes := Admin.ServedAdmin(db, c, bearer, r);
    SameRows(db, c, p);
    SameRows(db, c, q);
    HeldSame(db, before);
    TargetIsReadOwner(before, p);
    var owner := ReadOwner(before, p).value;
    GrantAllAppends(before, owner, entries, writes);
    GrantAllIsLocal(before, owner, entries, writes);
    var db' := GrantAll(before, owner, entries, writes).0;
    ReadsSame(before, db', p);
    ReadsSame(before, db', q);
    GrantedRowsGive(HeldBy(before, owner), entries, before.nextId, verb, resource, now);
    if q != p && ReadOwner(before, q).Some? { OwnersDiffer(before, p, q); }
  }

  /** Nothing a check reads has changed by the time a handler runs. */
  lemma SameRows(db: Db, c: Context, p: Principal)
    requires Sound(db)
    ensures ReadOwner(Arrive(db, c), p) == ReadOwner(db, p) && PermissionsFor(Arrive(db, c), p) == PermissionsFor(db, p)
    ensures PermissionsFor(db, p) == if ReadOwner(db, p).None? then Err else Ok(HeldBy(db, ReadOwner(db, p).value))
  {
    hide Sound, HeldBy;
    HeldSame(db, Arrive(db, c));
    ReadsSame(db, Arrive(db, c), p);
    ReadsSame(db, db, p);
  }

  /** What a revoke that succeeded has changed: of the principal named, exactly the rows are gone that
      an entry takes, and every other principal has what it had. */
  lemma RevokeEffect(db: Db, c: Context, bearer: string, p: Principal, entries: seq<Entry>,
                     row: Permission, ns: string, name: string, q: Principal)
    requires Sound(db) && Feasible(db, c) && Nameable(p) && Splits(row.pattern, ns, name)
    requires Serve(db, c, bearer, RevokeRequest(Show(p), entries)).1.Done?
    ensures var db' := Serve(db, c, bearer, RevokeRequest(Show(p), entries)).0;
            && PermissionsFor(db, p).Ok? && PermissionsFor(db', p).Ok?
            && (row in PermissionsFor(db', p).value <==>
                row in PermissionsFor(db, p).value && forall e <- entries :: !Takes(e, row.verb, ns, name))
            && (q != p ==> PermissionsFor(db', q) == PermissionsFor(db, q))
            && db'.anon == db.anon
  {
    hide Sound, Serve, Revoke, PermissionsFor, Takes, TargetOf, ReadOwner, Show, ParsePrincipal, HeldBy, Allows;
    var r := RevokeRequest(Show(p), entries);
    var before, bootstrap, writes := Admin.ServedAdmin(db, c, bearer, r);
    SameRows(db, c, p);
    SameRows(db, c, q);
    HeldSame(db, before);
    RevokeByText(before, p, entries, writes, row, ns, name);
    var db' := Revoke(before, Show(p), entries, writes).0;
    TargetIsReadOwner(before, p);
    if ReadOwner(before, q).Some? {
      RevokeOnlyTakes(before, Show(p), entries, writes, ReadOwner(before, q).value, List, "", 0);
      if q != p && ReadOwner(before, p).Some? { OwnersDiffer(before, p, q); }
    } else {
      RevokeOnlyTakes(before, Show(p), entries, writes, OfUser(0), List, "", 0);
    }
    ReadsSame(before, db', q);
  }

  /** A user is created exactly when there are a name and a password, and the writes for the row and,
      in a bootstrap, for ten grants. */
  lemma CreateUserAnswers(db: Db, name: string, pass: string, bootstrap: bool, writes: nat)
    ensures CreateUser(db, name, pass, bootstrap, writes).1 ==
            if name == "" || pass == "" then Rejected(BadRequest)
            else if (if bootstrap then 21 else 1) <= writes then Done
            else Rejected(Failed)
  {
    hide GrantAll;
    if writes > 0 { GrantAllSucceeds(InsertUser(db, name, pass), OfUser(db.nextId), BOOTSTRAP_GRANTS, writes - 1); }
  }

  /** The new row is the only change to the users; without a bootstrap the new user holds nothing, and
      nobody else's permissions change. */
  lemma CreateUserEffect(db: Db, c: Context, bearer: string, name: string, pass: string, owner: Owner)
    requires Sound(db) && Feasible(db, c) && Serve(db, c, bearer, CreateUserRequest(name, pass)).1.Done?
    ensures var db' := Serve(db, c, bearer, CreateUserRequest(name, pass)).0;
            && name != "" && pass != ""
            && db'.users == db.users[db.nextId := UserRow(name, pass)] && db.nextId !in db.users
            && (!(bearer != "" && bearer in c.bootstrap) ==> HeldBy(db', OfUser(db.nextId)) == [])
            && (owner != OfUser(db.nextId) ==> HeldBy(db', owner) == HeldBy(db, owner))
            && db'.sessions == db.sessions && db'.pats == db.pats && db'.caps == db.caps && db'.anon == db.anon
  {
    hide Sound, Serve, GrantAll, BOOTSTRAP_GRANTS, HeldBy;
    var r := CreateUserRequest(name, pass);
    var before, bootstrap, writes := Admin.ServedAdmin(db, c, bearer, r);
    HeldSame(db, before);
    HeldSame(before, InsertUser(before, name, pass));
    Admin.NewUserHoldsNothing(before, name, pass);
    NextIsNobody(db);
    GrantAllIsLocal(InsertUser(before, name, pass), OfUser(db.nextId), BOOTSTRAP_GRANTS,
                    if writes > 0 then writes - 1 else 0);
  }

  lemma NextIsNobody(db: Db)
    requires Sound(db)
    ensures db.nextId !in db.users
  {}

  /** ... and, if the name was free, can log in with that password. */
  lemma CreatedUserLogsIn(db: Db, c: Context, bearer: string, name: string, pass: string)
    requires Sound(db) && Feasible(db, c) && Serve(db, c, bearer, CreateUserRequest(name, pass)).1.Done?
    requires FindUser(db, name).None?
    ensures FindUser(Serve(db, c, bearer, CreateUserRequest(name, pass)).0, name) == Some(db.nextId)
  {
    hide Sound, Serve, Keeps, HeldBy;
    var db' := Serve(db, c, bearer, CreateUserRequest(name, pass)).0;
    CreateUserEffect(db, c, bearer, name, pass, OfUser(0));
    ServeKeeps(db, c, bearer, CreateUserRequest(name, pass));
    KeptIsSound(db, db');
    UserIsFound(db', db.nextId);
    UsersBelow(db);
    assert db'.users[db.nextId].name == name;
  }

  lemma UsersBelow(db: Db)
    requires Sound(db)
    ensures forall id <- db.users :: id < db.nextId
  {}

  /** Adding anonymous permissions that succeeds makes public exactly what the entries say beside what
      was public before. */
  lemma AddAnonEffect(db: Db, c: Context, bearer: string, entries: seq<Entry>, verb: Verb, resource: string, now: Time)
    requires Sound(db) && Feasible(db, c) && Serve(db, c, bearer, AddAnonRequest(entries)).1.Done?
    ensures var db' := Serve(db, c, bearer, AddAnonRequest(entries)).0;
            && (forall e <- entries :: ValidateAddPattern(e.pattern))
            && (AnyAnonGrants(db'.anon, verb, resource, now) <==>
                  || AnyAnonGrants(db.anon, verb, resource, now)
                  || exists e <- entries ::
                       && e.verb == verb && (e.expires.None? || now < e.expires.value)
                       && InPatternLanguage(e.pattern, resource))
            && db'.users == db.users && db'.held == db.held
  {
    hide Sound, Serve, InPatternLanguage, ValidateAddPattern;
    var r := AddAnonRequest(entries);
    var before, bootstrap, writes := Admin.ServedAdmin(db, c, bearer, r);
    AnonRowsGrant(entries, before.nextId, verb, resource, now);
    var rows := AnonRows(entries, before.nextId);
    assert forall a :: a in db.anon + rows <==> a in db.anon || a in rows;
  }

  lemma AnonRowsGrant(entries: seq<Entry>, firstId: nat, verb: Verb, resource: string, now: Time)
    ensures AnyAnonGrants(AnonRows(entries, firstId), verb, resource, now) <==>
            exists e <- entries ::
              && e.verb == verb && (e.expires.None? || now < e.expires.value)
              && InPatternLanguage(e.pattern, resource)
  {
    hide InPatternLanguage;
    var rows := AnonRows(entries, firstId);
    if a :| a in rows && AnonGrants(a, verb, resource, now) {
      var i :| 0 <= i < |rows| && rows[i] == a;
      assert entries[i] in entries;
    }
    forall e | e in entries && e.verb == verb && (e.expires.None? || now < e.expires.value)
               && InPatternLanguage(e.pattern, resource)
      ensures AnyAnonGrants(rows, verb, resource, now)
    {
      var i :| 0 <= i < |entries| && entries[i] == e;
      assert rows[i] in rows && AnonGrants(rows[i], verb, resource, now);
    }
  }

  /** Deleting an anonymous permission removes the rows of that id, and no other. */
  lemma DeleteAnonEffect(db: Db, c: Context, bearer: string, id: nat, a: AnonPermission)
    requires Sound(db) && Feasible(db, c) && Serve(db, c, bearer, DeleteAnonRequest(id)).1.Done?
    ensures var db' := Serve(db, c, bearer, DeleteAnonRequest(id)).0;
            && (a in db'.anon <==> a in db.anon && a.id != id)
            && db'.users == db.users && db'.held == db.held
  {
    hide Sound, Serve, WithoutAnon;
    var before, bootstrap, writes := Admin.ServedAdmin(db, c, bearer, DeleteAnonRequest(id));
    WithoutAnonExactly(db.anon, id, a);
  }

  lemma {:induction false} WithoutAnonExactly(rows: seq<AnonPermission>, id: nat, a: AnonPermission)
    ensures a in WithoutAnon(rows, id) <==> a in rows && a.id != id
  {
    if rows != [] { WithoutAnonExactly(rows[1..], id, a); }
  }

  /** Deleting a user that succeeds removes exactly the first user of the name and what is that user's:
      sessions, personal tokens, tokens issued, and permissions. */
  lemma DeleteUserEffect(db: Db, c: Context, bearer: string, name: string, owner: Owner)
    requires Sound(db) && Feasible(db, c) && Serve(db, c, bearer, DeleteUserRequest(name)).1.Done?
    ensures var db' := Serve(db, c, bearer, DeleteUserRequest(name)).0;
            var u := FindUser(db, name);
            && u.Some? && db'.users == db.users - {u.value}
            && (forall id :: id in db'.sessions <==> id in db.sessions && db.sessions[id].userId != u.value)
            && (forall id :: id in db'.pats <==> id in db.pats && db.pats[id].userId != u.value)
            && (forall id :: id in db'.caps <==> id in db.caps && db.caps[id].issuedBy != u)
            && (owner != OfUser(u.value) && !(owner.OfToken? && owner.id in db.caps && owner.id !in db'.caps) ==>
                  HeldBy(db', owner) == HeldBy(db, owner))
            && HeldBy(db', OfUser(u.value)) == [] && db'.anon == db.anon
  {
    hide Sound, Serve, FindUser;
    var before, bootstrap, writes := Admin.ServedAdmin(db, c, bearer, DeleteUserRequest(name));
    FindUserSame(db, before, name);
  }

  /** When the remaining administrative requests succeed, exactly. */
  lemma OtherAdminAnswers(db: Db, name: string, entries: seq<Entry>, id: nat, writes: nat)
    ensures DeleteUser(db, name, writes).1.Done? <==>
            writes > 0 && exists u <- db.users :: u < db.nextId && db.users[u].name == name
    ensures AddAnon(db, entries, writes).1.Done? <==>
            entries != [] && |entries| <= writes && forall e <- entries :: ValidateAddPattern(e.pattern)
    ensures DeleteAnon(db, id, writes).1.Done? <==> writes > 0
  {
    hide ValidateAddPattern, DropUser, AnonRows, WithoutAnon;
    if writes < |entries| { assert |entries[..writes]| < |entries|; }
  }
}
