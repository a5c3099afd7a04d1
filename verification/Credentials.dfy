/** What holds of tokens over every run: once dead they stay dead, no kind passes for another,
    and nothing of a deleted user comes back. */
module Credentials {
  import opened Strings
  import opened Authz
  import opened Access
  import opened AccessInvariants
  import opened Sync

  // -------------------------------------------------------------------------- runs

  datatype Event =
    | Call(c: Context, bearer: string, r: Request)
    | Synchronise(entries: seq<SaEntry>, writes: seq<nat>)

  ghost predicate FeasibleEvent(db: Db, e: Event) {
    match e
    case Call(c, _, _) => Feasible(db, c)
    case Synchronise(entries, writes) => |writes| == |entries|
  }

  ghost function After(db: Db, e: Event): Db
    requires FeasibleEvent(db, e)
  {
    match e
    case Call(c, bearer, r) => Serve(db, c, bearer, r).0
    case Synchronise(entries, writes) => ApplySync(db, entries, writes)
  }

  ghost predicate FeasibleRun(db: Db, events: seq<Event>)
    decreases |events|
  {
    events != [] ==> FeasibleEvent(db, events[0]) && FeasibleRun(After(db, events[0]), events[1..])
  }

  ghost function Run(db: Db, events: seq<Event>): Db
    requires FeasibleRun(db, events)
    decreases |events|
  {
    if events == [] then db else Run(After(db, events[0]), events[1..])
  }

  /** A new installation. */
  function Initial(clock: Time): Db {
    Db(clock, 0, {}, map[], map[], map[], map[], map[], map[], [])
  }

  lemma InitialIsSound(clock: Time)
    ensures Sound(Initial(clock))
  {}

  lemma EventKeeps(db: Db, e: Event)
    requires Sound(db) && FeasibleEvent(db, e)
    ensures Keeps(db, After(db, e))
  {
    hide Sound, Keeps, Serve, ApplySync;
    match e
    case Call(c, bearer, r) => ServeKeeps(db, c, bearer, r);
    case Synchronise(entries, writes) => ApplySyncKeeps(db, entries, writes);
  }

  /** The invariant holds, and the tables only evolve, over every run. */
  lemma {:induction false} RunKeeps(db: Db, events: seq<Event>)
    requires Sound(db) && FeasibleRun(db, events)
    ensures Keeps(db, Run(db, events))
    decreases |events|
  {
    hide Sound, Keeps, After, FeasibleEvent;
    if events == [] {
      KeepsReflexively(db);
    } else {
      var next := After(db, events[0]);
      EventKeeps(db, events[0]);
      KeptIsSound(db, next);
      RunKeeps(next, events[1..]);
      KeepsTransitively(db, next, Run(next, events[1..]));
    }
  }

  // ------------------------------------------------------------------------- kinds

  datatype Kind = SessionKind | RefreshKind | PatKind | CapabilityKind

  function PrefixOf(k: Kind): string {
    match k
    case SessionKind => SESSION_PREFIX
    case RefreshKind => REFRESH_PREFIX
    case PatKind => PAT_PREFIX
    case CapabilityKind => CAPABILITY_PREFIX
  }

  /** The token is good for what this kind of token is for, at `now`. */
  predicate AcceptedAs(db: Db, token: string, k: Kind, now: Time) {
    match k
    case SessionKind => SESSION_PREFIX <= token && ResolveSession(db, token, now).Some?
    case RefreshKind => Refreshable(db.(clock := now), token).Some?
    case PatKind => PAT_PREFIX <= token && ResolvePat(db, token, now).Some?
    case CapabilityKind => CAPABILITY_PREFIX <= token && ResolveCapability(db, token, now).Some?
  }

  predicate Accepted(db: Db, token: string, now: Time) {
    exists k: Kind :: AcceptedAs(db, token, k, now)
  }

  lemma KindOfToken(token: string, a: Kind, b: Kind)
    requires PrefixOf(a) <= token && PrefixOf(b) <= token
    ensures a == b
  {
    assert token[0] == PrefixOf(a)[0] && token[0] == PrefixOf(b)[0];
  }

  /** The stored hash of a token, in whichever table its kind lives. */
  ghost predicate StoredAs(db: Db, token: string, k: Kind) {
    match k
    case SessionKind => exists id <- db.sessions :: db.sessions[id].tokenHash == Of(token)
    case RefreshKind => exists id <- db.sessions :: db.sessions[id].refreshHash == Of(token)
    case PatKind => exists id <- db.pats :: db.pats[id].hash == Of(token)
    case CapabilityKind => exists id <- db.caps :: db.caps[id].hash == Of(token)
  }

  lemma AcceptedIsStored(db: Db, token: string, k: Kind, now: Time)
    requires AcceptedAs(db, token, k, now)
    ensures StoredAs(db, token, k)
  {}

  lemma StoredHasPrefix(db: Db, token: string, k: Kind)
    requires Sound(db) && StoredAs(db, token, k)
    ensures PrefixOf(k) <= token && token[|PrefixOf(k)|..] in db.used
  {
    match k
    case SessionKind =>
      var id :| id in db.sessions && db.sessions[id].tokenHash == Of(token);
      assert SessionSound(db.sessions[id], db.users.Keys, db.used, db.clock);
    case RefreshKind =>
      var id :| id in db.sessions && db.sessions[id].refreshHash == Of(token);
      assert SessionSound(db.sessions[id], db.users.Keys, db.used, db.clock);
    case PatKind =>
      var id :| id in db.pats && db.pats[id].hash == Of(token);
    case CapabilityKind =>
      var id :| id in db.caps && db.caps[id].hash == Of(token);
  }

  /** In every reachable state a token minted as one kind is stored, and so accepted, only as
      that kind, and only if its random part really was drawn. */
  lemma KindsAreSeparate(clock: Time, events: seq<Event>, minted: Kind, raw: string, k: Kind, now: Time)
    requires FeasibleRun(Initial(clock), events)
    ensures var db := Run(Initial(clock), events);
            && (StoredAs(db, PrefixOf(minted) + raw, k) ==> k == minted && raw in db.used)
            && (AcceptedAs(db, PrefixOf(minted) + raw, k, now) ==> k == minted && raw in db.used)
  {
    hide Sound, Keeps, StoredAs, AcceptedAs, Run;
    var db := Run(Initial(clock), events);
    var token := PrefixOf(minted) + raw;
    InitialIsSound(clock);
    RunKeeps(Initial(clock), events);
    KeptIsSound(Initial(clock), db);
    TokenTail(PrefixOf(minted), raw);
    if AcceptedAs(db, token, k, now) { AcceptedIsStored(db, token, k, now); }
    if StoredAs(db, token, k) {
      StoredHasPrefix(db, token, k);
      KindOfToken(token, minted, k);
    }
  }

  // ------------------------------------------------------------------ permanent death

  /** The token's random part has been drawn, so it will not be drawn again. */
  predicate Known(db: Db, token: string) {
    exists k: Kind :: PrefixOf(k) <= token && token[|PrefixOf(k)|..] in db.used
  }

  /** Nothing stored makes the token good now or at any later time. */
  ghost predicate Dead(db: Db, token: string) {
    && Known(db, token)
    && (forall id <- db.sessions :: db.sessions[id].tokenHash == Of(token) ==> db.sessions[id].expiresAt < db.clock)
    && (forall id <- db.sessions :: db.sessions[id].refreshHash == Of(token) ==> db.sessions[id].expiresAt < db.clock)
    && (forall id <- db.pats :: db.pats[id].hash != Of(token))
    && (forall id <- db.caps :: db.caps[id].hash != Of(token))
  }

  lemma NotDrawnAgain(db: Db, token: string, k: Kind, used': set<string>)
    requires Known(db, token)
    ensures !DrawnSince(Of(token), PrefixOf(k), db.used, used')
  {
    if DrawnSince(Of(token), PrefixOf(k), db.used, used') {
      var k' :| PrefixOf(k') <= token && token[|PrefixOf(k')|..] in db.used;
      KindOfToken(token, k, k');
    }
  }

  lemma DeadStaysDead(db: Db, db': Db, token: string)
    requires Dead(db, token) && Evolves(db, db')
    ensures Dead(db', token)
  {
    NotDrawnAgain(db, token, SessionKind, db'.used);
    NotDrawnAgain(db, token, RefreshKind, db'.used);
    NotDrawnAgain(db, token, PatKind, db'.used);
    NotDrawnAgain(db, token, CapabilityKind, db'.used);
    var k :| PrefixOf(k) <= token && token[|PrefixOf(k)|..] in db.used;
    assert token[|PrefixOf(k)|..] in db'.used;
  }

  lemma DeadIsRefused(db: Db, token: string, now: Time)
    requires Dead(db, token) && db.clock <= now
    ensures !Accepted(db, token, now)
  {
    forall k: Kind ensures !AcceptedAs(db, token, k, now) {}
  }

  /** From the moment it is dead a token is refused in every later state, at every later time. */
  lemma DeadForever(db: Db, token: string, events: seq<Event>, now: Time)
    requires Sound(db) && Dead(db, token) && FeasibleRun(db, events)
    requires Run(db, events).clock <= now
    ensures !Accepted(Run(db, events), token, now)
  {
    hide Sound, Dead, Evolves;
    RunKeeps(db, events);
    DeadStaysDead(db, Run(db, events), token);
    DeadIsRefused(Run(db, events), token, now);
  }

  /** After a successful refresh, the refresh token used and the session token it belonged to
      are never accepted again. */
  lemma RefreshIsFinal(db: Db, c: Context, bearer: string, token: string, session: string, events: seq<Event>,
                       now: Time)
    requires Sound(db) && Feasible(db, c)
    requires Serve(db, c, bearer, RefreshRequest(token)).1.Tokens?
    requires var id := Refreshable(Arrive(db, c), token); id.Some? ==> db.sessions[id.value].tokenHash == Of(session)
    requires var db' := Serve(db, c, bearer, RefreshRequest(token)).0;
             FeasibleRun(db', events) && Run(db', events).clock <= now
    ensures var later := Run(Serve(db, c, bearer, RefreshRequest(token)).0, events);
            !Accepted(later, token, now) && !Accepted(later, session, now)
  {
    hide Sound, Dead, Keeps, Run, FeasibleRun;
    var db' := Serve(db, c, bearer, RefreshRequest(token)).0;
    ServeKeeps(db, c, bearer, RefreshRequest(token));
    KeptIsSound(db, db');
    RefreshedTokensDie(db, c, bearer, token, session);
    DeadForever(db', token, events, now);
    DeadForever(db', session, events, now);
  }

  lemma RefreshedTokensDie(db: Db, c: Context, bearer: string, token: string, session: string)
    requires Sound(db) && Feasible(db, c)
    requires Serve(db, c, bearer, RefreshRequest(token)).1.Tokens?
    requires var id := Refreshable(Arrive(db, c), token); id.Some? ==> db.sessions[id.value].tokenHash == Of(session)
    ensures var db' := Serve(db, c, bearer, RefreshRequest(token)).0; Dead(db', token) && Dead(db', session)
  {
    hide Sound, Dead, Keeps, DeleteSession, InsertSession;
    var db0 := Arrive(db, c);
    var (db1, who, left) := Authenticate(db0, bearer, c.review, c.writes);
    ArriveKeeps(db, c);
    KeptIsSound(db, db0);
    AuthenticateKeeps(db0, bearer, c.review, c.writes);
    KeptIsSound(db0, db1);
    AuthenticateSessions(db0, bearer, c.review, c.writes, token);
    RefreshKillsBoth(db1, token, session, c.raws, left);
  }

  /** Authentication may add a service account, and nothing else. */
  lemma AuthenticateSessions(db: Db, bearer: string, review: Option<(string, string)>, writes: nat, token: string)
    requires Sound(db)
    ensures var db1 := Authenticate(db, bearer, review, writes).0;
            && db1 == db.(sas := db1.sas, nextId := db1.nextId)
            && Refreshable(db1, token) == Refreshable(db, token)
            && FindSession(db1, Of(token)) == FindSession(db, Of(token))
  {
    hide FindSa;
    var db1 := Authenticate(db, bearer, review, writes).0;
    if db1 != db {
      FindMore(db, db1, token);
    }
  }

  lemma FindMore(db: Db, db1: Db, token: string)
    requires Sound(db) && db1.sessions == db.sessions && db.nextId <= db1.nextId
    ensures FindSession(db1, Of(token)) == FindSession(db, Of(token))
    ensures FindRefresh(db1, Of(token)) == FindRefresh(db, Of(token))
  {}

  lemma RefreshKillsBoth(db: Db, token: string, session: string, raws: Raws, writes: nat)
    requires Sound(db) && FreshRaws(db, raws) && Refresh(db, token, raws, writes).1.Tokens?
    requires db.sessions[Refreshable(db, token).value].tokenHash == Of(session)
    ensures var db' := Refresh(db, token, raws, writes).0; Dead(db', token) && Dead(db', session)
  {
    hide Keeps, Evolves;
    var id := Refreshable(db, token).value;
    var db1 := AddSession(db, db.sessions[id].userId, raws);
    var db' := DeleteSession(db1, id);
    AddSessionKeeps(db, db.sessions[id].userId, raws);
    KeptIsSound(db, db1);
    DeleteSessionKills(db1, id, session);
    DeleteSessionKills(db1, id, token);
  }

  /** No row of any table but its own kind's stores the token. */
  ghost predicate OnlyAs(db: Db, token: string, k: Kind) {
    && Known(db, token)
    && (k != SessionKind ==> forall id <- db.sessions :: db.sessions[id].tokenHash != Of(token))
    && (k != RefreshKind ==> forall id <- db.sessions :: db.sessions[id].refreshHash != Of(token))
    && (k != PatKind ==> forall id <- db.pats :: db.pats[id].hash != Of(token))
    && (k != CapabilityKind ==> forall id <- db.caps :: db.caps[id].hash != Of(token))
  }

  lemma StoredOnlyAs(db: Db, token: string, k: Kind)
    requires Sound(db) && StoredAs(db, token, k)
    ensures OnlyAs(db, token, k)
  {
    hide Sound;
    StoredHasPrefix(db, token, k);
    NotStoredAs(db, token, k, SessionKind);
    NotStoredAs(db, token, k, RefreshKind);
    NotStoredAs(db, token, k, PatKind);
    NotStoredAs(db, token, k, CapabilityKind);
  }

  lemma NotStoredAs(db: Db, token: string, k: Kind, other: Kind)
    requires Sound(db) && StoredAs(db, token, k)
    ensures StoredAs(db, token, other) ==> other == k
  {
    hide Sound, StoredAs;
    if StoredAs(db, token, other) {
      StoredHasPrefix(db, token, k);
      StoredHasPrefix(db, token, other);
      KindOfToken(token, k, other);
    }
  }

  /** Deleting a session leaves neither of its tokens with a row. */
  lemma DeleteSessionKills(db: Db, id: nat, token: string)
    requires Sound(db) && id in db.sessions
    requires db.sessions[id].tokenHash == Of(token) || db.sessions[id].refreshHash == Of(token)
    ensures Dead(DeleteSession(db, id), token)
  {
    hide PatsSound, CapsSound, SasSound, HeldSound;
    var k := if db.sessions[id].tokenHash == Of(token) then SessionKind else RefreshKind;
    assert StoredAs(db, token, k);
    StoredOnlyAs(db, token, k);
  }

  /** After a successful logout, neither token of that session is ever accepted again. */
  lemma LogoutIsFinal(db: Db, c: Context, token: string, refresh: string, events: seq<Event>, now: Time)
    requires Sound(db) && Feasible(db, c) && Serve(db, c, token, LogoutRequest).1.Done?
    requires var id := FindSession(db, Of(token)); id.Some? ==> db.sessions[id.value].refreshHash == Of(refresh)
    requires var db' := Serve(db, c, token, LogoutRequest).0;
             FeasibleRun(db', events) && Run(db', events).clock <= now
    ensures var later := Run(Serve(db, c, token, LogoutRequest).0, events);
            !Accepted(later, token, now) && !Accepted(later, refresh, now)
  {
    hide Sound, Dead, Keeps, Run, FeasibleRun;
    var db' := Serve(db, c, token, LogoutRequest).0;
    ServeKeeps(db, c, token, LogoutRequest);
    KeptIsSound(db, db');
    LoggedOutTokensDie(db, c, token, refresh);
    DeadForever(db', token, events, now);
    DeadForever(db', refresh, events, now);
  }

  lemma LoggedOutTokensDie(db: Db, c: Context, token: string, refresh: string)
    requires Sound(db) && Feasible(db, c) && Serve(db, c, token, LogoutRequest).1.Done?
    requires var id := FindSession(db, Of(token)); id.Some? ==> db.sessions[id.value].refreshHash == Of(refresh)
    ensures var db' := Serve(db, c, token, LogoutRequest).0; Dead(db', token) && Dead(db', refresh)
  {
    hide Sound, Dead, Keeps, Logout;
    var db0 := Arrive(db, c);
    var (db1, who, left) := Authenticate(db0, token, c.review, c.writes);
    ArriveKeeps(db, c);
    KeptIsSound(db, db0);
    AuthenticateKeeps(db0, token, c.review, c.writes);
    KeptIsSound(db0, db1);
    AuthenticateSessions(db0, token, c.review, c.writes, token);
    assert FindSession(db0, Of(token)) == FindSession(db, Of(token));
    var db2 := Tick(db1, c.raws);
    TickKeeps(db1, c.raws);
    KeptIsSound(db1, db2);
    FindMore(db1, db2, token);
    LogoutKillsBoth(db2, token, refresh, left);
  }

  lemma FoundSession(db: Db, token: string)
    requires FindSession(db, Of(token)).Some?
    ensures var id := FindSession(db, Of(token)).value; id in db.sessions && db.sessions[id].tokenHash == Of(token)
  {}

  lemma InvalidateKills(db: Db, id: nat, token: string)
    requires Sound(db) && id in db.sessions
    requires db.sessions[id].tokenHash == Of(token) || db.sessions[id].refreshHash == Of(token)
    ensures Dead(InvalidateSession(db, id), token)
  {
    hide PatsSound, CapsSound, SasSound, HeldSound;
    var k := if db.sessions[id].tokenHash == Of(token) then SessionKind else RefreshKind;
    assert StoredAs(db, token, k);
    StoredOnlyAs(db, token, k);
  }

  /** `Logout` kills both tokens although it may move the stored expiry of an expired session
      forward. */
  lemma LogoutKillsBoth(db: Db, token: string, refresh: string, writes: nat)
    requires Sound(db) && Logout(db, token, writes).1.Done?
    requires var id := FindSession(db, Of(token)); id.Some? ==> db.sessions[id.value].refreshHash == Of(refresh)
    ensures var db' := Logout(db, token, writes).0; Dead(db', token) && Dead(db', refresh)
  {
    hide FindSession;
    var id := FindSession(db, Of(token)).value;
    FoundSession(db, token);
    InvalidateKills(db, id, token);
    InvalidateKills(db, id, refresh);
  }

  // --------------------------------------------------------------------- living tokens

  lemma FindsSession(db: Db, id: nat)
    requires Sound(db) && id in db.sessions
    ensures FindSession(db, db.sessions[id].tokenHash) == Some(id)
    ensures db.sessions[id].refreshHash != Blank ==> FindRefresh(db, db.sessions[id].refreshHash) == Some(id)
  {
    hide PatsSound, CapsSound, SasSound, HeldSound;
  }

  /** The tokens of a new session speak for its user until exactly fifteen minutes after the
      reading of the clock it was made with. */
  lemma NewTokensWork(db: Db, userId: nat, raws: Raws, now: Time)
    requires Sound(db) && userId in db.users && FreshRaws(db, raws)
    ensures var db' := AddSession(db, userId, raws);
            && ResolveSession(db', SESSION_PREFIX + raws.a, now) ==
                 (if now <= raws.at + 15 * MINUTE then Some(userId) else None)
            && Refreshable(db'.(clock := now), REFRESH_PREFIX + raws.b) ==
                 (if now <= raws.at + 15 * MINUTE then Some(db.nextId) else None)
  {
    hide Sound, Keeps;
    var db' := AddSession(db, userId, raws);
    AddSessionKeeps(db, userId, raws);
    KeptIsSound(db, db');
    FindsSession(db', db.nextId);
    TokenTail(REFRESH_PREFIX, raws.b);
    assert FindRefresh(db'.(clock := now), Of(REFRESH_PREFIX + raws.b)) ==
           FindRefresh(db', Of(REFRESH_PREFIX + raws.b));
  }

  // ---------------------------------------------------------------------- deleted users

  /** The user id has been given out and has no row: it will never have one again. */
  ghost predicate UserGone(db: Db, id: nat) {
    id < db.nextId && id !in db.users
  }

  lemma GoneUserHasNothing(db: Db, id: nat, token: string, now: Time)
    requires Sound(db) && UserGone(db, id)
    ensures ResolveSession(db, token, now) != Some(id) && ResolvePat(db, token, now) != Some(id)
    ensures ResolveCapability(db, token, now).Some? ==>
            db.caps[ResolveCapability(db, token, now).value].issuedBy != Some(id)
  {
    hide SessionsSound, PatsSound, SasSound, HeldSound;
  }

  /** After a user is deleted, nothing resolves to that user, nor to a token that user issued,
      in any later state, whoever is created under the same name. */
  lemma DeletedUserStaysGone(db: Db, c: Context, bearer: string, name: string, events: seq<Event>, token: string,
                             now: Time)
    requires Sound(db) && Feasible(db, c) && Serve(db, c, bearer, DeleteUserRequest(name)).1.Done?
    requires FeasibleRun(Serve(db, c, bearer, DeleteUserRequest(name)).0, events)
    ensures FindUser(db, name).Some?
    ensures var later := Run(Serve(db, c, bearer, DeleteUserRequest(name)).0, events);
            var id := FindUser(db, name).value;
            && ResolveSession(later, token, now) != Some(id)
            && ResolvePat(later, token, now) != Some(id)
            && (ResolveCapability(later, token, now).Some? ==>
                later.caps[ResolveCapability(later, token, now).value].issuedBy != Some(id))
  {
    hide Sound, Keeps, Run, FeasibleRun, ResolveSession, ResolvePat, ResolveCapability;
    var db' := Serve(db, c, bearer, DeleteUserRequest(name)).0;
    ServeKeeps(db, c, bearer, DeleteUserRequest(name));
    KeptIsSound(db, db');
    DeletionHappens(db, c, bearer, name);
    var id := FindUser(db, name).value;
    RunKeeps(db', events);
    KeptIsSound(db', Run(db', events));
    UserStaysGone(db', Run(db', events), id);
    GoneUserHasNothing(Run(db', events), id, token, now);
  }

  lemma UserStaysGone(db: Db, db': Db, id: nat)
    requires UserGone(db, id) && Keeps(db, db')
    ensures UserGone(db', id)
  {
    hide Sound, SessionsEvolve, PatsEvolve, CapsEvolve;
  }

  lemma DeletionHappens(db: Db, c: Context, bearer: string, name: string)
    requires Sound(db) && Feasible(db, c) && Serve(db, c, bearer, DeleteUserRequest(name)).1.Done?
    ensures FindUser(db, name).Some?
    ensures var db1 := Authenticate(Arrive(db, c), bearer, c.review, c.writes).0;
            && Serve(db, c, bearer, DeleteUserRequest(name)).0 == DropUser(db1, FindUser(db, name).value)
            && db1 == Arrive(db, c).(sas := db1.sas, nextId := db1.nextId)
            && UserGone(DropUser(db1, FindUser(db, name).value), FindUser(db, name).value)
  {
    hide RequireMeta, Keeps;
    var db0 := Arrive(db, c);
    ArriveKeeps(db, c);
    KeptIsSound(db, db0);
    AuthenticateSessions(db0, bearer, c.review, c.writes, "");
    var db1 := Authenticate(db0, bearer, c.review, c.writes).0;
    AuthenticateKeeps(db0, bearer, c.review, c.writes);
    KeptIsSound(db0, db1);
    FindUserSame(db, db1, name);
  }

  lemma FindUserSame(db: Db, db': Db, name: string)
    requires Sound(db) && db'.users == db.users && db.nextId <= db'.nextId
    ensures FindUser(db', name) == FindUser(db, name)
  {}

  /** Deleting one user does not disturb the tokens of another. */
  lemma OthersKeepTheirSessions(db: Db, id: nat, token: string, now: Time)
    requires Sound(db) && ResolveSession(db, token, now) != Some(id)
    ensures ResolveSession(DropUser(db, id), token, now) == ResolveSession(db, token, now)
  {
    hide PatsSound, CapsSound, SasSound, HeldSound, Keeps;
    var db' := DropUser(db, id);
    DropUserKeeps(db, id);
    KeptIsSound(db, db');
    var s := FindSession(db, Of(token));
    if s.Some? && s.value in db'.sessions { FindsSession(db', s.value); }
  }

  lemma OthersKeepTheirPats(db: Db, id: nat, token: string, now: Time)
    requires Sound(db) && ResolvePat(db, token, now) != Some(id)
    ensures ResolvePat(DropUser(db, id), token, now) == ResolvePat(db, token, now)
  {
    hide SessionsSound, CapsSound, SasSound, HeldSound, Keeps;
    var db' := DropUser(db, id);
    DropUserKeeps(db, id);
    KeptIsSound(db, db');
    var p := FindPat(db, Of(token));
    if p.Some? && p.value in db'.pats { FindsPat(db', p.value); }
  }

  lemma FindsPat(db: Db, id: nat)
    requires Sound(db) && id in db.pats
    ensures FindPat(db, db.pats[id].hash) == Some(id)
  {
    hide SessionsSound, CapsSound, SasSound, HeldSound;
  }

  lemma FindsCapability(db: Db, id: nat)
    requires Sound(db) && id in db.caps
    ensures FindCapability(db, db.caps[id].hash) == Some(id)
  {
    hide SessionsSound, PatsSound, SasSound, HeldSound;
  }

  /** A capability token not issued by the deleted user resolves as before, with its permissions. */
  lemma OthersKeepTheirCapabilities(db: Db, id: nat, token: string, now: Time)
    requires Sound(db)
    ensures var db' := DropUser(db, id);
            var cap := ResolveCapability(db, token, now);
            if cap.Some? && db.caps[cap.value].issuedBy == Some(id) then ResolveCapability(db', token, now).None?
            else ResolveCapability(db', token, now) == cap &&
                 (cap.Some? ==> HeldBy(db', OfToken(cap.value)) == HeldBy(db, OfToken(cap.value)))
  {
    hide SessionsSound, PatsSound, SasSound, HeldSound, Keeps;
    var db' := DropUser(db, id);
    DropUserKeeps(db, id);
    KeptIsSound(db, db');
    var c := FindCapability(db, Of(token));
    if c.Some? {
      FindsCapability(db, c.value);
      if c.value in db'.caps { FindsCapability(db', c.value); }
    }
    var c' := FindCapability(db', Of(token));
    if c'.Some? { FindsCapability(db, c'.value); }
  }

  /** A session, refresh, personal or issued capability token of the user. */
  ghost predicate BelongsTo(db: Db, token: string, id: nat) {
    || (exists s <- db.sessions :: db.sessions[s].userId == id && db.sessions[s].tokenHash == Of(token))
    || (exists s <- db.sessions :: db.sessions[s].userId == id && db.sessions[s].refreshHash == Of(token))
    || (exists p <- db.pats :: db.pats[p].userId == id && db.pats[p].hash == Of(token))
    || (exists c <- db.caps :: db.caps[c].issuedBy == Some(id) && db.caps[c].hash == Of(token))
  }

  lemma BelongingIsStored(db: Db, token: string, id: nat) returns (k: Kind)
    requires BelongsTo(db, token, id)
    ensures StoredAs(db, token, k)
  {
    if exists s <- db.sessions :: db.sessions[s].userId == id && db.sessions[s].tokenHash == Of(token) {
      k := SessionKind;
    } else if exists s <- db.sessions :: db.sessions[s].userId == id && db.sessions[s].refreshHash == Of(token) {
      k := RefreshKind;
    } else if exists p <- db.pats :: db.pats[p].userId == id && db.pats[p].hash == Of(token) {
      k := PatKind;
    } else {
      k := CapabilityKind;
    }
  }

  /** No row that stores the token outlives the user. */
  lemma DropUserForgets(db: Db, id: nat, token: string, k: Kind)
    requires Sound(db) && BelongsTo(db, token, id) && OnlyAs(db, token, k)
    ensures !StoredAs(DropUser(db, id), token, k)
  {
    hide SasSound, HeldSound, Known;
  }

  lemma DropUserKills(db: Db, id: nat, token: string)
    requires Sound(db) && BelongsTo(db, token, id)
    ensures Dead(DropUser(db, id), token)
  {
    hide Sound, Known, BelongsTo;
    var k := BelongingIsStored(db, token, id);
    StoredOnlyAs(db, token, k);
    DropUserForgets(db, id, token, k);
    KnownStays(db, DropUser(db, id), token);
  }

  lemma KnownStays(db: Db, db': Db, token: string)
    requires Known(db, token) && db.used <= db'.used
    ensures Known(db', token)
  {
    var k :| PrefixOf(k) <= token && token[|PrefixOf(k)|..] in db.used;
    assert token[|PrefixOf(k)|..] in db'.used;
  }

  /** ... and every token that user had is refused for good. */
  lemma DeletedUsersTokensStayDead(db: Db, c: Context, bearer: string, name: string, events: seq<Event>,
                                   token: string, now: Time)
    requires Sound(db) && Feasible(db, c) && Serve(db, c, bearer, DeleteUserRequest(name)).1.Done?
    requires FindUser(db, name).Some? && BelongsTo(db, token, FindUser(db, name).value)
    requires var db' := Serve(db, c, bearer, DeleteUserRequest(name)).0;
             FeasibleRun(db', events) && Run(db', events).clock <= now
    ensures !Accepted(Run(Serve(db, c, bearer, DeleteUserRequest(name)).0, events), token, now)
  {
    hide Sound, Dead, Keeps, Serve, DropUser, Authenticate, Run, FeasibleRun;
    var db' := Serve(db, c, bearer, DeleteUserRequest(name)).0;
    ServeKeeps(db, c, bearer, DeleteUserRequest(name));
    KeptIsSound(db, db');
    DeletionHappens(db, c, bearer, name);
    var db0 := Arrive(db, c);
    ArriveKeeps(db, c);
    KeptIsSound(db, db0);
    AuthenticateKeeps(db0, bearer, c.review, c.writes);
    var db1 := Authenticate(db0, bearer, c.review, c.writes).0;
    KeptIsSound(db0, db1);
    DropUserKills(db1, FindUser(db, name).value, token);
    DeadForever(db', token, events, now);
  }

  // --------------------------------------------------------------- resolution, declaratively

  /** A session token speaks for a user exactly when an unexpired row of that user stores it. */
  lemma SessionResolvesExactly(db: Db, token: string, now: Time, userId: nat)
    requires Sound(db)
    ensures ResolveSession(db, token, now) == Some(userId) <==>
            exists id <- db.sessions ::
              && db.sessions[id].tokenHash == Of(token) && now <= db.sessions[id].expiresAt
              && db.sessions[id].userId == userId
  {
    hide PatsSound, CapsSound, SasSound, HeldSound;
    if exists id <- db.sessions ::
        && db.sessions[id].tokenHash == Of(token) && now <= db.sessions[id].expiresAt
        && db.sessions[id].userId == userId
    {
      var id :| id in db.sessions && db.sessions[id].tokenHash == Of(token) && db.sessions[id].userId == userId;
      FindsSession(db, id);
      assert SessionSound(db.sessions[id], db.users.Keys, db.used, db.clock);
    }
  }

  /** A personal access token does so until its expiry, if it has one. */
  lemma PatResolvesExactly(db: Db, token: string, now: Time, userId: nat)
    requires Sound(db)
    ensures ResolvePat(db, token, now) == Some(userId) <==>
            exists id <- db.pats ::
              && db.pats[id].hash == Of(token) && db.pats[id].userId == userId
              && (db.pats[id].expiry.Some? ==> now <= db.pats[id].expiry.value)
  {
    hide SessionsSound, CapsSound, SasSound, HeldSound;
    if id :| id in db.pats && db.pats[id].hash == Of(token) && db.pats[id].userId == userId
             && (db.pats[id].expiry.Some? ==> now <= db.pats[id].expiry.value) {
      FindsPat(db, id);
    }
  }

  lemma CapabilityResolvesExactly(db: Db, token: string, now: Time, id: nat)
    requires Sound(db)
    ensures ResolveCapability(db, token, now) == Some(id) <==>
            && id in db.caps && db.caps[id].hash == Of(token)
            && (db.caps[id].expiresAt.Some? ==> now <= db.caps[id].expiresAt.value)
  {
    hide SessionsSound, PatsSound, SasSound, HeldSound;
    if id in db.caps && db.caps[id].hash == Of(token) { FindsCapability(db, id); }
  }

  /** A refresh token can be refreshed exactly while an unexpired row stores it. */
  lemma RefreshResolvesExactly(db: Db, token: string, now: Time, id: nat)
    requires Sound(db)
    ensures Refreshable(db.(clock := now), token) == Some(id) <==>
            id in db.sessions && db.sessions[id].refreshHash == Of(token) && now <= db.sessions[id].expiresAt
  {
    hide PatsSound, CapsSound, SasSound, HeldSound;
    assert FindRefresh(db.(clock := now), Of(token)) == FindRefresh(db, Of(token));
    if id in db.sessions && db.sessions[id].refreshHash == Of(token) {
      FindsSession(db, id);
      assert SessionSound(db.sessions[id], db.users.Keys, db.used, db.clock);
    }
  }

  /** A stored, unexpired session of the user stands behind the token. */
  ghost predicate SessionOf(db: Db, token: string, now: Time, userId: nat) {
    exists id <- db.sessions ::
      && db.sessions[id].tokenHash == Of(token) && now <= db.sessions[id].expiresAt
      && db.sessions[id].userId == userId
  }

  ghost predicate PatOf(db: Db, token: string, now: Time, userId: nat) {
    exists id <- db.pats ::
      && db.pats[id].hash == Of(token) && db.pats[id].userId == userId
      && (db.pats[id].expiry.Some? ==> now <= db.pats[id].expiry.value)
  }

  ghost predicate CapabilityOf(db: Db, token: string, now: Time, id: nat) {
    && id in db.caps && db.caps[id].hash == Of(token)
    && (db.caps[id].expiresAt.Some? ==> now <= db.caps[id].expiresAt.value)
  }

  /** Whom a bearer token authenticates, exactly: a session row's user as a session, a personal
      token's user as that, a capability token as itself. */
  lemma AuthenticatesExactly(db: Db, bearer: string, review: Option<(string, string)>, writes: nat, id: nat)
    requires Sound(db)
    ensures var who := Authenticate(db, bearer, review, writes).1;
            && (who == Some(ViaSession(id)) <==> SessionOf(db, bearer, db.clock, id))
            && (who == Some(ViaPat(id)) <==> PatOf(db, bearer, db.clock, id))
            && (who == Some(ViaToken(id)) <==> CapabilityOf(db, bearer, db.clock, id))
  {
    hide Sound, ResolveSession, ResolvePat, ResolveCapability, GetOrCreateSa;
    SessionResolvesExactly(db, bearer, db.clock, id);
    PatResolvesExactly(db, bearer, db.clock, id);
    CapabilityResolvesExactly(db, bearer, db.clock, id);
    if SessionOf(db, bearer, db.clock, id) { StoredIsPrefixed(db, bearer, SessionKind); }
    if PatOf(db, bearer, db.clock, id) {
      StoredIsPrefixed(db, bearer, PatKind);
      assert PrefixOf(PatKind) <= bearer && !(PrefixOf(SessionKind) <= bearer);
    }
    if CapabilityOf(db, bearer, db.clock, id) {
      StoredIsPrefixed(db, bearer, CapabilityKind);
      assert PrefixOf(CapabilityKind) <= bearer && !(PrefixOf(SessionKind) <= bearer) && !(PrefixOf(PatKind) <= bearer);
    }
  }

  /** A stored token has the prefix of its kind, and of no other. */
  lemma StoredIsPrefixed(db: Db, token: string, k: Kind)
    requires Sound(db) && StoredAs(db, token, k)
    ensures PrefixOf(k) <= token && forall other: Kind :: PrefixOf(other) <= token ==> other == k
  {
    hide Sound, StoredAs;
    StoredHasPrefix(db, token, k);
    forall other: Kind | PrefixOf(other) <= token ensures other == k { KindOfToken(token, k, other); }
  }

  /** Three parts between dots, the first of which begins as a JSON object does in base64. */
  ghost predicate JwtShaped(s: string) {
    "eyJ" <= s && exists a, b, c :: ThreeParts(s, a, b, c)
  }

  predicate ThreeParts(s: string, a: string, b: string, c: string) {
    '.' !in a && '.' !in b && '.' !in c && s == a + "." + b + "." + c
  }

  lemma {:induction false} CountNone(s: string, c: char)
    ensures Count(s, c) == 0 <==> c !in s
  {
    if s != "" { CountNone(s[1..], c); }
  }

  lemma {:induction false} CountConcat(a: string, b: string, c: char)
    ensures Count(a + b, c) == Count(a, c) + Count(b, c)
  {
    if a == "" {
      assert a + b == b;
    } else {
      CountConcat(a[1..], b, c);
      assert (a + b)[1..] == a[1..] + b;
    }
  }

  /** The counting test accepts exactly strings of that shape. */
  lemma JwtExactly(s: string)
    ensures LooksLikeJwt(s) <==> JwtShaped(s)
  {
    hide Count;
    forall a, b, c | ThreeParts(s, a, b, c) ensures Count(s, '.') == 2 {
      CountConcat(a + "." + b + ".", c, '.');
      CountConcat(a + "." + b, ".", '.');
      CountConcat(a + ".", b, '.');
      CountConcat(a, ".", '.');
      CountNone(a, '.');
      CountNone(b, '.');
      CountNone(c, '.');
      CountDot();
    }
    if Count(s, '.') == 2 {
      var a, rest := CutAtDot(s);
      var b, c := CutAtDot(rest);
      CountNone(c, '.');
      assert s == a + "." + b + "." + c;
      assert ThreeParts(s, a, b, c);
    }
  }

  lemma CountDot()
    ensures Count(".", '.') == 1
  {}

  /** Cutting at the first dot takes one dot away. */
  lemma CutAtDot(s: string) returns (head: string, rest: string)
    requires Count(s, '.') > 0
    ensures '.' !in head && s == head + "." + rest && Count(rest, '.') == Count(s, '.') - 1
  {
    hide Count;
    CountNone(s, '.');
    var i := Strings.Index(s, '.');
    head, rest := s[..i], s[i + 1..];
    CutAt(s, '.');
    CountConcat(head + ".", rest, '.');
    CountConcat(head, ".", '.');
    CountNone(head, '.');
    CountDot();
  }

  /** A reviewed JWT, and nothing else, authenticates a service account: the one the review names,
      made on the way if it is not there and the write succeeds. */
  lemma AuthenticatesAccount(db: Db, bearer: string, review: Option<(string, string)>, writes: nat)
    requires Sound(db)
    ensures var (db', who, _) := Authenticate(db, bearer, review, writes);
            && (who.Some? && who.value.ViaSa? <==>
                  && JwtShaped(bearer) && review.Some?
                  && (writes > 0 || exists id <- db.sas :: db.sas[id] == SaRow(review.value.0, review.value.1)))
            && (who.Some? && who.value.ViaSa? ==>
                  who.value.id in db'.sas && db'.sas[who.value.id] == SaRow(review.value.0, review.value.1))
  {
    hide SessionsSound, PatsSound, CapsSound, HeldSound, ResolveSession, ResolvePat, ResolveCapability, LooksLikeJwt,
         JwtShaped;
    JwtExactly(bearer);
    if JwtShaped(bearer) { JwtIsNoToken(bearer); }
  }

  lemma JwtIsNoToken(bearer: string)
    requires JwtShaped(bearer)
    ensures !(SESSION_PREFIX <= bearer) && !(PAT_PREFIX <= bearer) && !(CAPABILITY_PREFIX <= bearer)
  {
    assert bearer[0] == 'e';
  }
}
