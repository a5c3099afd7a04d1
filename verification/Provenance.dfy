/** Where credentials come from and who may take them away. */
module Provenance {
  import opened Strings
  import opened Principals
  import opened Authz
  import opened Access
  import opened AccessInvariants
  import opened Sync
  import opened Credentials
  import opened Locality
  import opened Delegation

  // ------------------------------------------------------------------ passwords first

  /** The user whose name and password a login presents. */
  function Presented(db: Db, e: Event): set<nat> {
    if e.Call? && e.r.LoginRequest? then
      var u := FindUser(db, e.r.name);
      if u.Some? && db.users[u.value].pass == e.r.pass then {u.value} else {}
    else {}
  }

  /** Everyone whose password has been presented in a run. */
  ghost function PresentedIn(db: Db, events: seq<Event>): set<nat>
    requires FeasibleRun(db, events)
    decreases |events|
  {
    if events == [] then {} else Presented(db, events[0]) + PresentedIn(After(db, events[0]), events[1..])
  }

  /** Every credential belongs to one of these users, or to nobody. */
  ghost predicate OwnedBy(db: Db, people: set<nat>) {
    && (forall id <- db.sessions :: db.sessions[id].userId in people)
    && (forall id <- db.pats :: db.pats[id].userId in people)
    && (forall id <- db.caps :: db.caps[id].issuedBy.Some? ==> db.caps[id].issuedBy.value in people)
  }

  lemma LosingKeepsOwners(db: Db, db': Db, people: set<nat>)
    requires OwnedBy(db, people) && SubMap(db'.pats, db.pats) && SubMap(db'.caps, db.caps)
    requires forall id <- db'.sessions :: id in db.sessions && db'.sessions[id].userId == db.sessions[id].userId
    ensures OwnedBy(db', people)
  {}

  /** Administration adds no credential, and only the deletion of a user takes any away. */
  lemma AdminAddsNone(db: Db, r: Request, bootstrap: bool, writes: nat)
    requires AdminVerb(r).Some?
    ensures var db' := HandleAdmin(db, r, bootstrap, writes).0;
            && SubMap(db'.sessions, db.sessions) && SubMap(db'.pats, db.pats) && SubMap(db'.caps, db.caps)
            && (!r.DeleteUserRequest? ==> db'.pats == db.pats && db'.caps == db.caps)
  {
    hide DeleteUser, CreateUser, Grant, Revoke, AddAnon, DeleteAnon, HeldBy;
    if r.DeleteUserRequest? {
      DeletionAddsNone(db, r.name, writes);
    } else {
      AdminIsLocal(db, r, bootstrap, writes);
    }
  }

  lemma DeletionAddsNone(db: Db, name: string, writes: nat)
    ensures var db' := DeleteUser(db, name, writes).0;
            SubMap(db'.sessions, db.sessions) && SubMap(db'.pats, db.pats) && SubMap(db'.caps, db.caps)
  {
    hide FindUser;
  }

  lemma OwnKeepsOwners(db: Db, userId: nat, r: Request, raws: Raws, writes: nat, people: set<nat>)
    requires userId in db.users && OwnedBy(db, people) && userId in people
    ensures OwnedBy(HandleOwn(db, userId, r, raws, writes).0, people)
  {
    hide HandleOwn, HeldBy;
    OwnIsLocal(db, userId, r, raws, writes);
  }

  lemma RefreshKeepsOwners(db: Db, token: string, raws: Raws, writes: nat, people: set<nat>)
    requires OwnedBy(db, people)
    ensures OwnedBy(Refresh(db, token, raws, writes).0, people)
  {
    hide FindRefresh;
  }

  lemma LogoutKeepsOwners(db: Db, token: string, writes: nat, people: set<nat>)
    requires OwnedBy(db, people)
    ensures OwnedBy(Logout(db, token, writes).0, people)
  {}

  /** Whoever a bearer token authenticates as a user, is one of the owners. */
  lemma CallerIsOwner(db: Db, bearer: string, review: Option<(string, string)>, writes: nat, people: set<nat>)
    requires OwnedBy(db, people)
    ensures var who := Authenticate(db, bearer, review, writes).1;
            who.Some? && UserOf(who.value).Some? ==> UserOf(who.value).value in people
  {
    hide GetOrCreateSa, ResolveCapability;
  }

  lemma HandleKeepsOwners(db: Db, who: Identity, bearer: string, r: Request, raws: Raws, writes: nat, people: set<nat>)
    requires OwnedBy(db, people) && (UserOf(who).Some? ==> UserOf(who).value in people)
    ensures OwnedBy(Handle(db, who, bearer, r, raws, writes).0, people)
  {
    hide HandleAdmin, HandleOwn, RequireMeta, Refresh, Logout, OwnedBy;
    if AdminVerb(r).Some? {
      AdminAddsNone(db, r, false, writes);
      LosingKeepsOwners(db, HandleAdmin(db, r, false, writes).0, people);
    }
    if r.RefreshRequest? { RefreshKeepsOwners(db, r.token, raws, writes, people); }
    if r.LogoutRequest? {
      LosingKeepsOwners(db, Tick(db, raws), people);
      LogoutKeepsOwners(Tick(db, raws), bearer, writes, people);
    }
    if UserOf(who).Some? && UserOf(who).value in db.users {
      OwnKeepsOwners(db, UserOf(who).value, r, raws, writes, people);
    }
  }

  lemma LoginKeepsOwners(db: Db, c: Context, r: Request, people: set<nat>)
    requires Sound(db) && OwnedBy(db, people) && r.LoginRequest?
    ensures OwnedBy(Login(Arrive(db, c), r.name, r.pass, c.raws, c.writes).0, people + Presented(db, Call(c, "", r)))
  {
    hide Sound;
    FindUserSame(db, Arrive(db, c), r.name);
  }

  lemma AnonTokenKeepsOwners(db: Db, ttl: Time, raws: Raws, writes: nat, people: set<nat>)
    requires OwnedBy(db, people)
    ensures OwnedBy(AnonToken(db, ttl, raws, writes).0, people)
  {
    hide AnonToken, HeldBy;
    AnonTokenIsLocal(db, ttl, raws, writes);
  }

  lemma ServeKeepsOwners(db: Db, c: Context, bearer: string, r: Request, people: set<nat>)
    requires Sound(db) && Feasible(db, c) && OwnedBy(db, people)
    ensures OwnedBy(Serve(db, c, bearer, r).0, people + Presented(db, Call(c, bearer, r)))
  {
    hide Sound, Keeps, HandleAdmin, Handle, Authenticate, OwnedBy, Login, AnonToken;
    if r.LoginRequest? {
      LoginKeepsOwners(db, c, r, people);
    } else {
      assert people + {} == people;
      var db0 := Arrive(db, c);
      ArriveKeeps(db, c);
      KeptIsSound(db, db0);
      LosingKeepsOwners(db, db0, people);
      if r.AnonTokenRequest? {
        AnonTokenKeepsOwners(db0, r.ttl, c.raws, c.writes, people);
      } else if IsBootstrap(c, bearer, r) {
        AdminAddsNone(db0, r, true, c.writes);
        LosingKeepsOwners(db0, HandleAdmin(db0, r, true, c.writes).0, people);
      } else if bearer != "" {
        var (db1, who, left) := Authenticate(db0, bearer, c.review, c.writes);
        AuthenticateSessions(db0, bearer, c.review, c.writes, "");
        CallerIsOwner(db0, bearer, c.review, c.writes, people);
        LosingKeepsOwners(db0, db1, people);
        if who.Some? { HandleKeepsOwners(db1, who.value, bearer, r, c.raws, left, people); }
      }
    }
  }

  lemma {:induction false} SyncKeepsCredentials(db: Db, entries: seq<SaEntry>, writes: seq<nat>)
    requires |writes| == |entries|
    ensures var db' := ApplySync(db, entries, writes);
            db'.sessions == db.sessions && db'.pats == db.pats && db'.caps == db.caps
    decreases |entries|
  {
    hide Filtered, RowsOf, FindSa;
    if entries != [] { SyncKeepsCredentials(SyncOne(db, entries[0], writes[0]).0, entries[1..], writes[1..]); }
  }

  lemma EventKeepsOwners(db: Db, e: Event, people: set<nat>)
    requires Sound(db) && FeasibleEvent(db, e) && OwnedBy(db, people)
    ensures OwnedBy(After(db, e), people + Presented(db, e))
  {
    hide Sound, Serve, ApplySync;
    match e
    case Call(c, bearer, r) => ServeKeepsOwners(db, c, bearer, r, people);
    case Synchronise(entries, writes) => SyncKeepsCredentials(db, entries, writes);
  }

  lemma {:induction false} RunKeepsOwners(db: Db, events: seq<Event>, people: set<nat>)
    requires Sound(db) && FeasibleRun(db, events) && OwnedBy(db, people)
    ensures OwnedBy(Run(db, events), people + PresentedIn(db, events))
    decreases |events|
  {
    hide Sound, Keeps, After, FeasibleEvent, OwnedBy, Presented;
    if events == [] {
      assert people + {} == people;
    } else {
      var next := After(db, events[0]);
      EventKeepsOwners(db, events[0], people);
      EventKeeps(db, events[0]);
      KeptIsSound(db, next);
      RunKeepsOwners(next, events[1..], people + Presented(db, events[0]));
      Reassociate(people, Presented(db, events[0]), PresentedIn(next, events[1..]));
    }
  }

  lemma Reassociate(a: set<nat>, b: set<nat>, c: set<nat>)
    ensures (a + b) + c == a + (b + c)
  {}

  /** No password, no credential: in every run, whatever speaks for a user, or was issued by one,
      was preceded by a login with that user's name and password. */
  lemma NoPasswordNoCredential(clock: Time, events: seq<Event>, token: string, now: Time, userId: nat)
    requires FeasibleRun(Initial(clock), events)
    requires var db := Run(Initial(clock), events);
             || ResolveSession(db, token, now) == Some(userId)
             || ResolvePat(db, token, now) == Some(userId)
             || (exists id <- db.caps :: db.caps[id].issuedBy == Some(userId))
    ensures userId in PresentedIn(Initial(clock), events)
  {
    hide Sound, Run, PresentedIn;
    InitialIsSound(clock);
    RunKeepsOwners(Initial(clock), events, {});
    assert {} + PresentedIn(Initial(clock), events) == PresentedIn(Initial(clock), events);
  }

  // ------------------------------------------------------- names lead back to the caller

  /** The users that looking up their own name finds. */
  function Firsts(db: Db): set<nat> {
    set id | id in db.users && FindUser(db, db.users[id].name) == Some(id)
  }

  lemma PresentedAreFirst(db: Db, e: Event)
    ensures Presented(db, e) <= Firsts(db)
  {}

  /** A user who was the first of a name stays it: later users have later ids. */
  lemma FirstsStay(db: Db, db': Db, id: nat)
    requires Sound(db) && Keeps(db, db') && id in Firsts(db) && id in db'.users
    ensures id in Firsts(db')
  {
    hide SessionsSound, PatsSound, CapsSound, SasSound, HeldSound, SessionsEvolve, PatsEvolve, CapsEvolve;
    assert id < db.nextId && db'.users[id] == db.users[id];
    var first := FindUser(db', db'.users[id].name);
    assert first.Some? && first.value <= id;
    assert first.value in db.users && db.users[first.value].name == db.users[id].name;
  }

  lemma OwnersExist(db: Db, people: set<nat>)
    requires Sound(db) && OwnedBy(db, people)
    ensures OwnedBy(db, people * db.users.Keys)
  {
    hide SasSound, HeldSound;
    assert forall id <- db.sessions :: SessionSound(db.sessions[id], db.users.Keys, db.used, db.clock);
  }

  lemma MoreOwners(db: Db, people: set<nat>, more: set<nat>)
    requires OwnedBy(db, people) && people <= more
    ensures OwnedBy(db, more)
  {}

  lemma EventKeepsFirsts(db: Db, e: Event)
    requires Sound(db) && FeasibleEvent(db, e) && OwnedBy(db, Firsts(db))
    ensures OwnedBy(After(db, e), Firsts(After(db, e)))
  {
    hide Sound, Keeps, OwnedBy, Presented, After, Firsts;
    var db' := After(db, e);
    EventKeeps(db, e);
    KeptIsSound(db, db');
    EventKeepsOwners(db, e, Firsts(db));
    PresentedAreFirst(db, e);
    assert Firsts(db) + Presented(db, e) == Firsts(db);
    OwnersExist(db', Firsts(db));
    forall id | id in Firsts(db) * db'.users.Keys ensures id in Firsts(db') { FirstsStay(db, db', id); }
    MoreOwners(db', Firsts(db) * db'.users.Keys, Firsts(db'));
  }

  lemma {:induction false} RunKeepsFirsts(db: Db, events: seq<Event>)
    requires Sound(db) && FeasibleRun(db, events) && OwnedBy(db, Firsts(db))
    ensures OwnedBy(Run(db, events), Firsts(Run(db, events)))
    decreases |events|
  {
    hide Sound, Keeps, After, FeasibleEvent, OwnedBy, Firsts;
    if events != [] {
      EventKeepsFirsts(db, events[0]);
      EventKeeps(db, events[0]);
      KeptIsSound(db, After(db, events[0]));
      RunKeepsFirsts(After(db, events[0]), events[1..]);
    }
  }

  /** A user with a credential: one for whom a session or personal token speaks, or who issued a
      capability token. */
  ghost predicate HasCredential(db: Db, userId: nat) {
    || (exists id <- db.sessions :: db.sessions[id].userId == userId)
    || (exists id <- db.pats :: db.pats[id].userId == userId)
    || (exists id <- db.caps :: db.caps[id].issuedBy == Some(userId))
  }

  lemma ResolvedHasCredential(db: Db, token: string, now: Time, userId: nat)
    requires ResolveSession(db, token, now) == Some(userId) || ResolvePat(db, token, now) == Some(userId)
    ensures HasCredential(db, userId)
  {}

  /** Checks are made by user name, and names need not be unique; yet in every reachable state the
      permissions read for the name of a user with a credential are that user's own. */
  lemma NamesLeadBack(clock: Time, events: seq<Event>, userId: nat)
    requires FeasibleRun(Initial(clock), events) && HasCredential(Run(Initial(clock), events), userId)
    ensures var db := Run(Initial(clock), events);
            userId in db.users && PermissionsFor(db, User(db.users[userId].name)) == Ok(HeldBy(db, OfUser(userId)))
  {
    hide Sound, Run, HasCredential;
    InitialIsSound(clock);
    RunKeepsFirsts(Initial(clock), events);
    FirstReadsOwn(Run(Initial(clock), events), userId);
  }

  lemma FirstReadsOwn(db: Db, userId: nat)
    requires OwnedBy(db, Firsts(db)) && HasCredential(db, userId)
    ensures userId in db.users && PermissionsFor(db, User(db.users[userId].name)) == Ok(HeldBy(db, OfUser(userId)))
  {
    hide FindUser;
  }

  // ----------------------------------------------------------------- who takes away

  lemma OwnRemovesOwn(db: Db, userId: nat, r: Request, raws: Raws, writes: nat, id: nat)
    requires userId in db.users && id < db.nextId
    ensures var db' := HandleOwn(db, userId, r, raws, writes).0;
            && (id in db.pats && id !in db'.pats ==> r == RevokePatRequest(id) && db.pats[id].userId == userId)
            && (id in db.caps && id !in db'.caps ==>
                r == RevokeCapabilityRequest(id) && db.caps[id].issuedBy == Some(userId))
  {
    hide DelegationRefusal, RowsOf;
  }

  /** A personal or capability token disappears only at the request of its owner, or with the
      owner's deletion. */
  lemma OnlyOwnersRevoke(db: Db, c: Context, bearer: string, r: Request, id: nat)
    requires Sound(db) && Feasible(db, c) && !r.DeleteUserRequest?
    ensures var db' := Serve(db, c, bearer, r).0;
            && (id in db.pats && id !in db'.pats ==>
                r == RevokePatRequest(id) && Caller(db, c, bearer) == Some(db.pats[id].userId))
            && (id in db.caps && id !in db'.caps ==>
                r == RevokeCapabilityRequest(id) && Caller(db, c, bearer) == db.caps[id].issuedBy)
  {
    hide Sound, Keeps, HandleAdmin, Handle, Authenticate, Login, AnonToken;
    var db0 := Arrive(db, c);
    CredentialsBelow(db);
    if r.LoginRequest? {
      LoginRemovesNone(db0, r.name, r.pass, c.raws, c.writes);
    } else if r.AnonTokenRequest? {
      AnonTokenRemovesNone(db0, r.ttl, c.raws, c.writes, id);
    } else if IsBootstrap(c, bearer, r) {
      AdminAddsNone(db0, r, true, c.writes);
    } else if bearer != "" {
      ArriveKeeps(db, c);
      KeptIsSound(db, db0);
      var (db1, who, left) := Authenticate(db0, bearer, c.review, c.writes);
      AuthenticateSessions(db0, bearer, c.review, c.writes, "");
      AuthenticateKeeps(db0, bearer, c.review, c.writes);
      KeptIsSound(db0, db1);
      if who.Some? && id < db.nextId { HandleRemovesOwn(db1, who.value, bearer, r, c.raws, left, id); }
    }
  }

  lemma LoginRemovesNone(db: Db, name: string, pass: string, raws: Raws, writes: nat)
    ensures var db' := Login(db, name, pass, raws, writes).0; db'.pats == db.pats && db'.caps == db.caps
  {
    hide FindUser;
  }

  lemma AnonTokenRemovesNone(db: Db, ttl: Time, raws: Raws, writes: nat, id: nat)
    ensures var db' := AnonToken(db, ttl, raws, writes).0; db'.pats == db.pats && (id in db.caps ==> id in db'.caps)
  {
    hide LiveAnon, RowsOf, AnonEntries;
  }

  lemma HandleRemovesOwn(db: Db, who: Identity, bearer: string, r: Request, raws: Raws, writes: nat, id: nat)
    requires !r.DeleteUserRequest? && id < db.nextId
    ensures var db' := Handle(db, who, bearer, r, raws, writes).0;
            && (id in db.pats && id !in db'.pats ==>
                r == RevokePatRequest(id) && UserOf(who) == Some(db.pats[id].userId))
            && (id in db.caps && id !in db'.caps ==>
                r == RevokeCapabilityRequest(id) && UserOf(who) == db.caps[id].issuedBy)
  {
    hide HandleAdmin, HandleOwn, RequireMeta;
    if AdminVerb(r).Some? { AdminAddsNone(db, r, false, writes); }
    if UserOf(who).Some? && UserOf(who).value in db.users { OwnRemovesOwn(db, UserOf(who).value, r, raws, writes, id); }
  }

  lemma CredentialsBelow(db: Db)
    requires Sound(db)
    ensures (forall id <- db.pats :: id < db.nextId) && (forall id <- db.caps :: id < db.nextId)
  {}
}
