/** Capability tokens: what a delegated token can do at most, and what an anonymous token can
    do exactly (internal/api/tokens.go, internal/api/auth.go). */
module Delegation {
  import opened Strings
  import opened Glob
  import opened Principals
  import opened Authz
  import opened Access
  import opened AccessInvariants
  import opened Sync
  import opened Credentials
  import opened Locality

  // -------------------------------------------------------------------- attenuation

  /** The validation loop lets an issue through exactly when every entry is well formed and its
      pattern's text passes the issuer's own check. */
  lemma {:induction false} RefusalDecides(db: Db, issuer: Principal, entries: seq<Entry>)
    ensures DelegationRefusal(db, issuer, entries).None? <==>
            forall i :: 0 <= i < |entries| ==>
              WellFormedPattern(entries[i].pattern) && MayDelegate(db, issuer, entries[i])
  {
    if entries != [] {
      RefusalDecides(db, issuer, entries[1..]);
      assert forall i :: 0 < i < |entries| ==> entries[i] == entries[1..][i - 1];
    }
  }

  /** A token's rows allow nothing that the entries' patterns do not match. */
  lemma RowsAllowWhatEntriesMatch(entries: seq<Entry>, firstId: nat, verb: Verb, resource: string, now: Time)
    returns (i: nat)
    requires Allows(RowsOf(entries, firstId), verb, resource, now)
    ensures i < |entries| && entries[i].verb == verb && MatchesPattern(resource, entries[i].pattern)
  {
    var rows := RowsOf(entries, firstId);
    var p :| p in rows && Covers(p, verb, resource, now);
    i :| 0 <= i < |rows| && rows[i] == p;
  }

  /** The one way past the cover: the `*` / `*` shortcut itself was delegated for the verb, and
      the resource's name has a slash. */
  predicate InGap(entries: seq<Entry>, verb: Verb, resource: string) {
    '/' in SplitSlash(resource).1 &&
    exists i :: 0 <= i < |entries| && entries[i].verb == verb && entries[i].pattern == ANYTHING
  }

  /** Coverage of the entries, at any time, is coverage of the token at that time. */
  lemma TokenIsCovered(held: seq<Permission>, entries: seq<Entry>, firstId: nat, verb: Verb, resource: string,
                       now: Time)
    requires forall i :: 0 <= i < |entries| ==> Allows(held, entries[i].verb, entries[i].pattern, now)
    requires Allows(RowsOf(entries, firstId), verb, resource, now)
    ensures Allows(held, verb, resource, now) || InGap(entries, verb, resource)
  {
    hide Allows, RowsOf, MatchesPattern;
    var i := RowsAllowWhatEntriesMatch(entries, firstId, verb, resource, now);
    CoverageTransfers(held, verb, entries[i].pattern, resource, now);
  }

  /** The user on whose behalf a request is made, after authentication. */
  function Caller(db: Db, c: Context, bearer: string): Option<nat> {
    var who := Authenticate(Arrive(db, c), bearer, c.review, c.writes).1;
    if who.None? then None else UserOf(who.value)
  }

  /** What a successful issue leaves behind. */
  lemma IssueStores(db: Db, c: Context, bearer: string, entries: seq<Entry>)
    requires Sound(db) && Feasible(db, c)
    requires Serve(db, c, bearer, IssueCapabilityRequest(entries)).1.Issued?
    ensures Caller(db, c, bearer).Some? && Caller(db, c, bearer).value in db.users && entries != []
    ensures var uid := Caller(db, c, bearer).value;
            var db1 := Authenticate(Arrive(db, c), bearer, c.review, c.writes).0;
            && db1 == Arrive(db, c).(sas := db1.sas, nextId := db1.nextId) && Sound(db1)
            && Serve(db, c, bearer, IssueCapabilityRequest(entries)) ==
                 (AddCapability(db1, Some(uid), None, entries, c.raws), Issued(CAPABILITY_PREFIX + c.raws.a))
            && DelegationRefusal(db1, User(db.users[uid].name), entries).None?
  {
    hide Sound, Keeps, DelegationRefusal, InsertCapability, ResolveSession, ResolvePat, ResolveCapability,
         GetOrCreateSa;
    var db0 := Arrive(db, c);
    ArriveKeeps(db, c);
    KeptIsSound(db, db0);
    AuthenticateKeeps(db0, bearer, c.review, c.writes);
    AuthenticateSessions(db0, bearer, c.review, c.writes, "");
    KeptIsSound(db0, Authenticate(db0, bearer, c.review, c.writes).0);
  }

  lemma TokenResolves(db: Db, issuedBy: Option<nat>, expires: Option<Time>, entries: seq<Entry>, raws: Raws, now: Time)
    requires Sound(db) && (issuedBy.Some? ==> issuedBy.value in db.users) && FreshRaws(db, raws)
    requires expires.Some? ==> now <= expires.value
    ensures var db' := AddCapability(db, issuedBy, expires, entries, raws);
            && ResolveCapability(db', CAPABILITY_PREFIX + raws.a, now) == Some(db.nextId)
            && HeldBy(db', OfToken(db.nextId)) == RowsOf(entries, db.nextId + 1)
            && db'.caps[db.nextId].issuedBy == issuedBy
  {
    hide Sound, Keeps, RowsOf;
    var db' := AddCapability(db, issuedBy, expires, entries, raws);
    AddCapabilityKeeps(db, issuedBy, expires, entries, raws);
    KeptIsSound(db, db');
    FindsCapability(db', db.nextId);
  }

  /** Minting a token leaves the issuer's own permissions as they were. */
  lemma IssuerUnchanged(db: Db, issuedBy: Option<nat>, expires: Option<Time>, entries: seq<Entry>, raws: Raws,
                        name: string)
    requires Sound(db)
    ensures PermissionsFor(AddCapability(db, issuedBy, expires, entries, raws), User(name)) ==
            PermissionsFor(db, User(name))
  {
    hide RowsOf;
    FindUserSame(db, AddCapability(db, issuedBy, expires, entries, raws), name);
  }

  /** Delegation is attenuation: the token just issued resolves, names its issuer, and whatever
      `Check` then allows it, `Check` allows the issuer, for every verb and resource outside the
      gap of the shortcut. It is so without exception if and only if the issuer holds the shortcut
      wherever the token does. */
  lemma DelegationAttenuates(db: Db, c: Context, bearer: string, entries: seq<Entry>, verb: Verb, resource: string)
    requires Sound(db) && Feasible(db, c)
    requires Serve(db, c, bearer, IssueCapabilityRequest(entries)).1.Issued?
    ensures Caller(db, c, bearer).Some? && Caller(db, c, bearer).value in db.users
    ensures var (db', answer) := Serve(db, c, bearer, IssueCapabilityRequest(entries));
            var uid := Caller(db, c, bearer).value;
            var token := ResolveCapability(db', answer.token, c.now);
            && token.Some? && db'.caps[token.value].issuedBy == Some(uid)
            && (CheckPrincipal(db', Token(token.value), verb, resource, c.now) == Ok(true) ==>
                CheckPrincipal(db', User(db.users[uid].name), verb, resource, c.now) == Ok(true) ||
                  InGap(entries, verb, resource))
            && var issuer := PermissionsFor(db', User(db.users[uid].name));
               && issuer.Ok?
               && (WithinFully(HeldBy(db', OfToken(token.value)), issuer.value, c.now) <==>
                   ShortcutsHeld(RowsOf(entries, token.value + 1), issuer.value, c.now))
  {
    hide Sound, Serve, AddCapability, DelegationRefusal, ResolveCapability, Authenticate, Caller, Allows, RowsOf,
         FindUser, InGap, WithinFully, ShortcutsHeld, TextsPass;
    IssueStores(db, c, bearer, entries);
    var uid := Caller(db, c, bearer).value;
    var db1 := Authenticate(Arrive(db, c), bearer, c.review, c.writes).0;
    var name := db.users[uid].name;
    TokenResolves(db1, Some(uid), None, entries, c.raws, c.now);
    IssuerUnchanged(db1, Some(uid), None, entries, c.raws, name);
    RefusalDecides(db1, User(name), entries);
    var held := PermissionsFor(db1, User(name));
    IssuerCovers(db1, name, entries);
    if Allows(RowsOf(entries, db1.nextId + 1), verb, resource, c.now) {
      TokenIsCovered(held.value, entries, db1.nextId + 1, verb, resource, c.now);
    }
    IssuedTextsPass(db, c, bearer, entries, db1.nextId + 1);
    PassingIsFullyWithin(RowsOf(entries, db1.nextId + 1), held.value, c.now);
  }

  /** At issue every entry's text passes the issuer's check. */
  lemma IssuedTextsPass(db: Db, c: Context, bearer: string, entries: seq<Entry>, firstId: nat)
    requires Sound(db) && Feasible(db, c) && Serve(db, c, bearer, IssueCapabilityRequest(entries)).1.Issued?
    requires Caller(db, c, bearer).Some? && Caller(db, c, bearer).value in db.users
    ensures var db' := Serve(db, c, bearer, IssueCapabilityRequest(entries)).0;
            var issuer := PermissionsFor(db', User(db.users[Caller(db, c, bearer).value].name));
            issuer.Ok? && TextsPass(RowsOf(entries, firstId), issuer.value, c.now)
  {
    hide Sound, Serve, RowsOf, AddCapability, DelegationRefusal, Authenticate, Caller, PermissionsFor, Allows,
         MayDelegate;
    IssueStores(db, c, bearer, entries);
    var uid := Caller(db, c, bearer).value;
    var db1 := Authenticate(Arrive(db, c), bearer, c.review, c.writes).0;
    var name := db.users[uid].name;
    IssuerUnchanged(db1, Some(uid), None, entries, c.raws, name);
    RefusalDecides(db1, User(name), entries);
    IssuerCovers(db1, name, entries);
    var rows := RowsOf(entries, firstId);
    forall p | p in rows ensures Allows(PermissionsFor(db1, User(name)).value, p.verb, p.pattern, c.now) {
      var i :| 0 <= i < |rows| && rows[i] == p;
    }
  }

  lemma IssuerCovers(db: Db, name: string, entries: seq<Entry>)
    requires forall i :: 0 <= i < |entries| ==> MayDelegate(db, User(name), entries[i])
    requires entries != []
    ensures PermissionsFor(db, User(name)).Ok?
    ensures forall i :: 0 <= i < |entries| ==>
              Allows(PermissionsFor(db, User(name)).value, entries[i].verb, entries[i].pattern, db.clock)
  {
    hide Allows, FindUser;
    assert MayDelegate(db, User(name), entries[0]);
  }

  // ---------------------------------------------------------------- immutable tokens

  /** A token's permissions do not change while the token exists, and a token nobody issued
      is not removed. */
  ghost predicate TokensFixed(db: Db, db': Db) {
    forall id <- db.caps :: id < db.nextId ==>
      && (id in db'.caps ==> HeldBy(db', OfToken(id)) == HeldBy(db, OfToken(id)))
      && (db.caps[id].issuedBy.None? ==> id in db'.caps)
  }

  /** Neither the token table nor any token's permissions are touched. */
  ghost predicate TokensAside(db: Db, db': Db) {
    db'.caps == db.caps && forall id: nat :: HeldBy(db', OfToken(id)) == HeldBy(db, OfToken(id))
  }

  lemma AsideIsFixed(a: Db, b: Db, c: Db)
    requires TokensAside(a, b) && TokensFixed(b, c) && a.nextId <= b.nextId
    ensures TokensFixed(a, c)
  {}

  lemma DeleteUserFixesTokens(db: Db, name: string, writes: nat)
    ensures TokensFixed(db, DeleteUser(db, name, writes).0)
  {
    hide FindUser;
  }

  lemma AdminFixesTokens(db: Db, r: Request, bootstrap: bool, writes: nat)
    requires AdminVerb(r).Some?
    ensures TokensFixed(db, HandleAdmin(db, r, bootstrap, writes).0)
  {
    hide DeleteUser, CreateUser, Grant, Revoke, AddAnon, DeleteAnon, HeldBy;
    if r.DeleteUserRequest? {
      DeleteUserFixesTokens(db, r.name, writes);
    } else {
      AdminIsLocal(db, r, bootstrap, writes);
    }
  }

  lemma OwnFixesTokens(db: Db, userId: nat, r: Request, raws: Raws, writes: nat)
    requires userId in db.users
    ensures TokensFixed(db, HandleOwn(db, userId, r, raws, writes).0)
  {
    hide DelegationRefusal, RowsOf;
  }

  lemma HandleFixesTokens(db: Db, who: Identity, bearer: string, r: Request, raws: Raws, writes: nat)
    ensures TokensFixed(db, Handle(db, who, bearer, r, raws, writes).0)
  {
    hide HandleAdmin, HandleOwn, RequireMeta;
    if AdminVerb(r).Some? { AdminFixesTokens(db, r, false, writes); }
    if UserOf(who).Some? && UserOf(who).value in db.users { OwnFixesTokens(db, UserOf(who).value, r, raws, writes); }
  }

  lemma ServeFixesTokens(db: Db, c: Context, bearer: string, r: Request)
    requires Sound(db) && Feasible(db, c)
    ensures TokensFixed(db, Serve(db, c, bearer, r).0)
  {
    hide Sound, Keeps, HandleAdmin, Handle, Authenticate, Login, AnonToken, TokensFixed, TokensAside;
    var db0 := Arrive(db, c);
    ArriveKeeps(db, c);
    KeptIsSound(db, db0);
    ArriveAside(db, c);
    if r.LoginRequest? || r.AnonTokenRequest? {
      PublicFixesTokens(db0, r, c);
    } else if IsBootstrap(c, bearer, r) {
      AdminFixesTokens(db0, r, true, c.writes);
    } else if bearer != "" {
      var (db1, who, left) := Authenticate(db0, bearer, c.review, c.writes);
      AuthenticateAside(db0, bearer, c.review, c.writes);
      AuthenticateKeeps(db0, bearer, c.review, c.writes);
      KeptIsSound(db0, db1);
      NothingFixesTokens(db1);
      if who.Some? { HandleFixesTokens(db1, who.value, bearer, r, c.raws, left); }
      AsideIsFixed(db0, db1, Serve(db, c, bearer, r).0);
    } else {
      NothingFixesTokens(db0);
    }
    AsideIsFixed(db, db0, Serve(db, c, bearer, r).0);
  }

  lemma ArriveAside(db: Db, c: Context)
    ensures TokensAside(db, Arrive(db, c))
  {}

  lemma NothingFixesTokens(db: Db)
    ensures TokensFixed(db, db)
  {}

  lemma PublicFixesTokens(db: Db, r: Request, c: Context)
    requires r.LoginRequest? || r.AnonTokenRequest?
    ensures r.LoginRequest? ==> TokensFixed(db, Login(db, r.name, r.pass, c.raws, c.writes).0)
    ensures r.AnonTokenRequest? ==> TokensFixed(db, AnonToken(db, r.ttl, c.raws, c.writes).0)
  {
    hide LiveAnon, RowsOf, AnonEntries, FindUser;
  }

  lemma AuthenticateAside(db: Db, bearer: string, review: Option<(string, string)>, writes: nat)
    requires Sound(db)
    ensures TokensAside(db, Authenticate(db, bearer, review, writes).0)
  {
    hide Sound, Authenticate;
    AuthenticateSessions(db, bearer, review, writes, "");
  }

  lemma {:induction false} SyncFixesTokens(db: Db, entries: seq<SaEntry>, writes: seq<nat>)
    requires |writes| == |entries|
    ensures ApplySync(db, entries, writes).caps == db.caps
    decreases |entries|
  {
    hide Filtered, RowsOf, FindSa;
    if entries != [] { SyncFixesTokens(SyncOne(db, entries[0], writes[0]).0, entries[1..], writes[1..]); }
  }

  lemma EventFixesTokens(db: Db, e: Event)
    requires Sound(db) && FeasibleEvent(db, e)
    ensures TokensFixed(db, After(db, e))
  {
    hide Sound, Serve, ApplySync;
    match e
    case Call(c, bearer, r) => ServeFixesTokens(db, c, bearer, r);
    case Synchronise(entries, writes) =>
      SyncFixesTokens(db, entries, writes);
      SyncLeavesUsersAlone(db, entries, writes);
  }

  /** A removed token does not come back. */
  lemma CapabilityStaysGone(db: Db, db': Db, id: nat)
    requires Keeps(db, db') && id < db.nextId && id !in db.caps
    ensures id !in db'.caps
  {
    hide Sound, SessionsEvolve, PatsEvolve, UsersEvolve;
  }

  /** Over every run, the permissions of a capability token are those it was issued with, for as
      long as it exists; a token without an issuer exists for ever. */
  lemma {:induction false} TokensAreImmutable(db: Db, events: seq<Event>, id: nat)
    requires Sound(db) && FeasibleRun(db, events) && id in db.caps && id < db.nextId
    ensures var later := Run(db, events);
            && (id in later.caps ==>
                HeldBy(later, OfToken(id)) == HeldBy(db, OfToken(id)) && later.caps[id] == db.caps[id])
            && (db.caps[id].issuedBy.None? ==> id in later.caps)
    decreases |events|
  {
    hide Sound, Keeps, After, FeasibleEvent, HeldBy;
    if events != [] {
      var next := After(db, events[0]);
      EventFixesTokens(db, events[0]);
      EventKeeps(db, events[0]);
      KeptIsSound(db, next);
      if id in next.caps {
        CapabilityIsSame(db, next, id);
        TokensAreImmutable(next, events[1..], id);
      } else {
        RunKeeps(next, events[1..]);
        CapabilityStaysGone(next, Run(next, events[1..]), id);
      }
    }
  }

  lemma CapabilityIsSame(db: Db, db': Db, id: nat)
    requires Keeps(db, db') && id < db.nextId && id in db'.caps
    ensures id in db.caps && db'.caps[id] == db.caps[id]
  {
    hide Sound, SessionsEvolve, PatsEvolve, UsersEvolve;
  }

  // ---------------------------------------------------------------- tokens later on

  /** The row covers the resource otherwise than by the shortcut on a name with a slash. */
  predicate CoversPlainly(p: Permission, verb: Verb, resource: string, now: Time) {
    Covers(p, verb, resource, now) && !(p.pattern == ANYTHING && '/' in SplitSlash(resource).1)
  }

  /** At `now` the rows allow nothing, outside the gap, that `held` does not. */
  ghost predicate Within(rows: seq<Permission>, held: seq<Permission>, now: Time) {
    forall p <- rows, verb: Verb, resource: string ::
      CoversPlainly(p, verb, resource, now) ==> Allows(held, verb, resource, now)
  }

  /** The text of every row that has not expired passes the check on `held`. */
  predicate TextsPass(rows: seq<Permission>, held: seq<Permission>, now: Time) {
    forall p <- rows :: !Expired(p, now) ==> Allows(held, p.verb, p.pattern, now)
  }

  lemma PassingTextsAreWithin(rows: seq<Permission>, held: seq<Permission>, now: Time)
    requires TextsPass(rows, held, now)
    ensures Within(rows, held, now)
  {
    hide Allows, MatchesPattern;
    forall p, verb: Verb, resource: string | p in rows && CoversPlainly(p, verb, resource, now)
      ensures Allows(held, verb, resource, now)
    {
      CoverageTransfers(held, verb, p.pattern, resource, now);
    }
  }

  lemma WithinTextPasses(rows: seq<Permission>, held: seq<Permission>, now: Time, x: char, p: Permission)
    requires x != '/' && x != '*' && forall q <- held :: x !in q.pattern
    requires Within(rows, held, now) && p in rows && !Expired(p, now)
    ensures Allows(held, p.verb, p.pattern, now)
  {
    hide MatchesPattern;
    var r := Generic(p.pattern, x);
    GenericIsPlain(p.pattern, x);
    assert CoversPlainly(p, p.verb, r, now);
    var q :| q in held && Covers(q, p.verb, r, now);
    GenericMatchIsEnough(q.pattern, p.pattern, x);
    assert Covers(q, p.verb, p.pattern, now);
  }

  /** At any time, rows are within what a holder is allowed exactly when their texts pass the
      holder's check at that time; `x` is any character the holder's patterns do not use. */
  lemma WithinExactly(rows: seq<Permission>, held: seq<Permission>, now: Time, x: char)
    requires x != '/' && x != '*' && forall q <- held :: x !in q.pattern
    ensures Within(rows, held, now) <==> TextsPass(rows, held, now)
  {
    hide Within, Allows;
    if TextsPass(rows, held, now) { PassingTextsAreWithin(rows, held, now); }
    if Within(rows, held, now) {
      forall p | p in rows && !Expired(p, now) ensures Allows(held, p.verb, p.pattern, now) {
        WithinTextPasses(rows, held, now, x, p);
      }
    }
  }

  /** At `now` the rows allow nothing at all that `held` does not. */
  ghost predicate WithinFully(rows: seq<Permission>, held: seq<Permission>, now: Time) {
    forall verb: Verb, resource: string :: Allows(rows, verb, resource, now) ==> Allows(held, verb, resource, now)
  }

  predicate LiveAnything(p: Permission, now: Time) {
    p.pattern == ANYTHING && !Expired(p, now)
  }

  predicate HasAnything(held: seq<Permission>, verb: Verb, now: Time) {
    exists q <- held :: LiveAnything(q, now) && q.verb == verb
  }

  /** Where a row is the shortcut, so is one of the holder's. */
  predicate ShortcutsHeld(rows: seq<Permission>, held: seq<Permission>, now: Time) {
    forall p <- rows :: LiveAnything(p, now) ==> HasAnything(held, p.verb, now)
  }

  function Longest(held: seq<Permission>): (n: nat)
    ensures forall q <- held :: |q.pattern| <= n
  {
    if held == [] then 0
    else
      var rest := Longest(held[1..]);
      if |held[0].pattern| > rest then |held[0].pattern| else rest
  }

  /** Only the shortcut covers the shortcut: any other holder can be outrun by a long enough name. */
  lemma ShortcutNeedsShortcut(rows: seq<Permission>, held: seq<Permission>, now: Time, p: Permission)
    requires WithinFully(rows, held, now) && p in rows && LiveAnything(p, now)
    ensures HasAnything(held, p.verb, now)
  {
    hide SplitSlash;
    var n := Longest(held) + 1;
    assert Covers(p, p.verb, Slashes(n), now);
    assert Allows(rows, p.verb, Slashes(n), now);
    var q :| q in held && Covers(q, p.verb, Slashes(n), now);
    if q.pattern != ANYTHING { SlashesOutOfReach(q.pattern, n); }
  }

  lemma CoveredRowsAreFullyWithin(rows: seq<Permission>, held: seq<Permission>, now: Time)
    requires TextsPass(rows, held, now) && ShortcutsHeld(rows, held, now)
    ensures WithinFully(rows, held, now)
  {
    hide SplitSlash;
    PassingTextsAreWithin(rows, held, now);
    forall verb: Verb, resource: string | Allows(rows, verb, resource, now) ensures Allows(held, verb, resource, now) {
      var p :| p in rows && Covers(p, verb, resource, now);
      if p.pattern == ANYTHING {
        var q :| q in held && LiveAnything(q, now) && q.verb == verb;
        assert Covers(q, verb, resource, now);
      } else {
        assert CoversPlainly(p, verb, resource, now);
      }
    }
  }

  /** Rows whose texts pass are within what the holder is allowed, on every resource there is,
      exactly when the shortcut is among them only where it is among the holder's own. */
  lemma PassingIsFullyWithin(rows: seq<Permission>, held: seq<Permission>, now: Time)
    requires TextsPass(rows, held, now)
    ensures WithinFully(rows, held, now) <==> ShortcutsHeld(rows, held, now)
  {
    hide WithinFully, TextsPass, LiveAnything, HasAnything;
    if ShortcutsHeld(rows, held, now) { CoveredRowsAreFullyWithin(rows, held, now); }
    if WithinFully(rows, held, now) {
      forall p | p in rows && LiveAnything(p, now) ensures HasAnything(held, p.verb, now) {
        ShortcutNeedsShortcut(rows, held, now, p);
      }
    }
  }

  lemma FullyIsWithin(rows: seq<Permission>, held: seq<Permission>, now: Time)
    requires WithinFully(rows, held, now)
    ensures Within(rows, held, now)
  {
    hide MatchesPattern;
    forall p, verb: Verb, resource: string | p in rows && CoversPlainly(p, verb, resource, now)
      ensures Allows(held, verb, resource, now)
    {
      assert Allows(rows, verb, resource, now);
    }
  }

  /** Without any hypothesis: the rows are within what a holder is allowed exactly when their texts
      pass and the shortcut is among them only where it is among the holder's own. */
  lemma FullyWithinExactly(rows: seq<Permission>, held: seq<Permission>, now: Time, x: char)
    requires x != '/' && x != '*' && forall q <- held :: x !in q.pattern
    ensures WithinFully(rows, held, now) <==> TextsPass(rows, held, now) && ShortcutsHeld(rows, held, now)
  {
    hide WithinFully, Within, TextsPass, ShortcutsHeld;
    WithinExactly(rows, held, now, x);
    if WithinFully(rows, held, now) { FullyIsWithin(rows, held, now); }
    if TextsPass(rows, held, now) { PassingIsFullyWithin(rows, held, now); }
  }

  /** A held row that covers the text of `p` and does not expire before it. */
  predicate Outlasts(q: Permission, p: Permission) {
    && q.verb == p.verb && MatchesPattern(p.pattern, q.pattern)
    && (q.expires.None? || (p.expires.Some? && p.expires.value <= q.expires.value))
  }

  lemma TextsLast(rows: seq<Permission>, held: seq<Permission>, issued: Time)
    requires forall p <- rows :: p.expires.Some?
    ensures (forall now: Time :: issued <= now ==> TextsPass(rows, held, now)) <==>
            (forall p <- rows :: !Expired(p, issued) ==> exists q <- held :: Outlasts(q, p))
  {
    hide MatchesPattern;
    if forall now: Time :: issued <= now ==> TextsPass(rows, held, now) {
      forall p | p in rows && !Expired(p, issued) ensures exists q <- held :: Outlasts(q, p) {
        var last := p.expires.value;
        assert TextsPass(rows, held, last);
        var q :| q in held && Covers(q, p.verb, p.pattern, last);
        assert Outlasts(q, p);
      }
    }
    if forall p <- rows :: !Expired(p, issued) ==> exists q <- held :: Outlasts(q, p) {
      forall now: Time, p | issued <= now && p in rows && !Expired(p, now)
        ensures Allows(held, p.verb, p.pattern, now)
      {
        var q :| q in held && Outlasts(q, p);
        assert Covers(q, p.verb, p.pattern, now);
      }
    }
  }

  /** Issuing does not bound a token's expiry by the issuer's. With the issuer's rows unchanged, a
      token stays within them at every later time exactly when each of its rows that is live at
      issue is outlasted by a row of the issuer. */
  lemma LastsExactly(rows: seq<Permission>, held: seq<Permission>, issued: Time, x: char)
    requires x != '/' && x != '*' && forall q <- held :: x !in q.pattern
    requires forall p <- rows :: p.expires.Some?
    ensures (forall now: Time :: issued <= now ==> Within(rows, held, now)) <==>
            (forall p <- rows :: !Expired(p, issued) ==> exists q <- held :: Outlasts(q, p))
  {
    hide Within, TextsPass, Outlasts;
    TextsLast(rows, held, issued);
    forall now: Time ensures Within(rows, held, now) <==> TextsPass(rows, held, now) {
      WithinExactly(rows, held, now, x);
    }
  }

  /** A token without expiry, issued by a holder whose row expires at 10, is within the holder's
      rights at 5 and beyond them at 20. */
  lemma TokenOutlivesIssuer()
    ensures var held := [NewPermission(1, "a" + "/" + "*", Read, Some(10))];
            var rows := RowsOf([Entry(Read, "a" + "/" + "*", None)], 2);
            Within(rows, held, 5) && !Within(rows, held, 20)
  {
    hide Within;
    var held := [NewPermission(1, "a" + "/" + "*", Read, Some(10))];
    var rows := RowsOf([Entry(Read, "a" + "/" + "*", None)], 2);
    SplitSlashConcat("a", "*");
    StarMatches("*");
    PlainMatchIsEquality("a", "a");
    assert Covers(held[0], Read, "a" + "/" + "*", 5);
    WithinExactly(rows, held, 5, 'x');
    WithinExactly(rows, held, 20, 'x');
    assert rows[0] in rows && !Expired(rows[0], 20) && !Allows(held, Read, rows[0].pattern, 20);
  }

  lemma IssuerStays(db: Db, db': Db, id: nat, uid: nat, name: string)
    requires Sound(db) && Keeps(db, db') && id in db'.caps && db'.caps[id].issuedBy == Some(uid)
    requires uid in db.users && db.users[uid].name == name
    ensures PermissionsFor(db', User(name)).Ok?
  {
    hide SessionsSound, PatsSound, SasSound, HeldSound, SessionsEvolve, PatsEvolve, CapsEvolve;
    assert uid in db'.users && db'.users[uid] == db.users[uid];
  }

  /** At any later point of any run a token that still exists has a readable issuer, and is within
      what the issuer is then allowed exactly when the texts of its rows, as issued, pass the
      issuer's check then. */
  lemma DelegationLater(db: Db, c: Context, bearer: string, entries: seq<Entry>, events: seq<Event>, now: Time, x: char)
    requires Sound(db) && Feasible(db, c)
    requires Serve(db, c, bearer, IssueCapabilityRequest(entries)).1.Issued?
    requires FeasibleRun(Serve(db, c, bearer, IssueCapabilityRequest(entries)).0, events)
    requires x != '/' && x != '*'
    ensures Caller(db, c, bearer).Some? && Caller(db, c, bearer).value in db.users
    ensures var (db', answer) := Serve(db, c, bearer, IssueCapabilityRequest(entries));
            var token := ResolveCapability(db', answer.token, c.now);
            var later := Run(db', events);
            var issuer := PermissionsFor(later, User(db.users[Caller(db, c, bearer).value].name));
            token.Some? && (token.value in later.caps ==>
              && issuer.Ok?
              && ((forall q <- issuer.value :: x !in q.pattern) ==>
                    (Within(HeldBy(later, OfToken(token.value)), issuer.value, now) <==>
                     TextsPass(RowsOf(entries, token.value + 1), issuer.value, now))))
  {
    hide Sound, Keeps, Serve, Run, FeasibleRun, AddCapability, DelegationRefusal, ResolveCapability, Authenticate,
         Caller, RowsOf, FindUser, Within, TextsPass, PermissionsFor, HeldBy;
    IssueStores(db, c, bearer, entries);
    var uid := Caller(db, c, bearer).value;
    var name := db.users[uid].name;
    var db1 := Authenticate(Arrive(db, c), bearer, c.review, c.writes).0;
    var db' := Serve(db, c, bearer, IssueCapabilityRequest(entries)).0;
    var id := db1.nextId;
    TokenResolves(db1, Some(uid), None, entries, c.raws, c.now);
    AddCapabilityKeeps(db1, Some(uid), None, entries, c.raws);
    KeptIsSound(db1, db');
    CapabilityIdBounded(db1, Some(uid), None, entries, c.raws);
    TokensAreImmutable(db', events, id);
    RunKeeps(db', events);
    var later := Run(db', events);
    if id in later.caps {
      IssuerStays(db', later, id, uid, name);
      var held := PermissionsFor(later, User(name)).value;
      if forall q <- held :: x !in q.pattern { WithinExactly(RowsOf(entries, id + 1), held, now, x); }
    }
  }

  lemma CapabilityIdBounded(db: Db, issuedBy: Option<nat>, expires: Option<Time>, entries: seq<Entry>, raws: Raws)
    ensures var db' := AddCapability(db, issuedBy, expires, entries, raws);
            db.nextId in db'.caps && db.nextId < db'.nextId && db'.users == db.users
  {
    hide RowsOf;
  }

  // ---------------------------------------------------------------- anonymous tokens

  /** Until when a copied permission works: its own expiry, or the sentinel. */
  function WorksUntil(a: AnonPermission): Time {
    if a.expires.Some? then a.expires.value else NO_EXPIRY
  }

  /** The row copied from an anonymous permission covers the same, until the same time. */
  lemma CopyCovers(a: AnonPermission, id: nat, verb: Verb, resource: string, now: Time)
    ensures Covers(NewPermission(id, a.pattern, a.verb, a.expires), verb, resource, now) <==>
            AnonCovers(a, verb, resource) && now <= WorksUntil(a)
  {}

  function Copies(anon: seq<AnonPermission>, issued: Time, firstId: nat): seq<Permission> {
    RowsOf(AnonEntries(LiveAnon(anon, issued)), firstId)
  }

  lemma CopiesAreLive(anon: seq<AnonPermission>, issued: Time, firstId: nat, i: nat)
    requires i < |Copies(anon, issued, firstId)|
    ensures i < |LiveAnon(anon, issued)|
    ensures var a := LiveAnon(anon, issued)[i];
            && Copies(anon, issued, firstId)[i] == NewPermission(firstId + i, a.pattern, a.verb, a.expires)
            && a in anon && AnonLive(a, issued)
  {
    assert LiveAnon(anon, issued)[i] in LiveAnon(anon, issued);
  }

  lemma SnapshotIsSound(anon: seq<AnonPermission>, issued: Time, firstId: nat, verb: Verb, resource: string, now: Time)
    requires Allows(Copies(anon, issued, firstId), verb, resource, now)
    ensures exists a <- anon :: AnonLive(a, issued) && AnonCovers(a, verb, resource) && now <= WorksUntil(a)
  {
    hide Copies, Covers, AnonCovers, AnonLive, WorksUntil, LiveAnon;
    var rows := Copies(anon, issued, firstId);
    var p :| p in rows && Covers(p, verb, resource, now);
    var i :| 0 <= i < |rows| && rows[i] == p;
    CopiesAreLive(anon, issued, firstId, i);
    CopyCovers(LiveAnon(anon, issued)[i], firstId + i, verb, resource, now);
  }

  lemma SnapshotIsComplete(anon: seq<AnonPermission>, issued: Time, firstId: nat, a: AnonPermission, verb: Verb,
                           resource: string, now: Time)
    requires a in anon && AnonLive(a, issued) && AnonCovers(a, verb, resource) && now <= WorksUntil(a)
    ensures Allows(Copies(anon, issued, firstId), verb, resource, now)
  {
    hide Covers, AnonCovers, WorksUntil, NewPermission;
    var live, rows := LiveAnon(anon, issued), Copies(anon, issued, firstId);
    assert a in live;
    var i :| 0 <= i < |live| && live[i] == a;
    CopiesAreLive(anon, issued, firstId, i);
    CopyCovers(a, firstId + i, verb, resource, now);
    assert rows[i] in rows && Covers(rows[i], verb, resource, now);
  }

  /** Exactly what the copied rows allow at any later time, at the edges as well. */
  lemma SnapshotAllows(anon: seq<AnonPermission>, issued: Time, firstId: nat, verb: Verb, resource: string, now: Time)
    ensures Allows(RowsOf(AnonEntries(LiveAnon(anon, issued)), firstId), verb, resource, now) <==>
            exists a <- anon :: AnonLive(a, issued) && AnonCovers(a, verb, resource) && now <= WorksUntil(a)
  {
    hide Allows, AnonLive, AnonCovers, WorksUntil, RowsOf, AnonEntries, LiveAnon;
    if Allows(Copies(anon, issued, firstId), verb, resource, now) {
      SnapshotIsSound(anon, issued, firstId, verb, resource, now);
    }
    if a :| a in anon && AnonLive(a, issued) && AnonCovers(a, verb, resource) && now <= WorksUntil(a) {
      SnapshotIsComplete(anon, issued, firstId, a, verb, resource, now);
    }
  }

  /** The copy and the original agree from issue on, up to the sentinel, except at the very
      instant an anonymous permission expires. */
  lemma SnapshotAgrees(anon: seq<AnonPermission>, issued: Time, firstId: nat, verb: Verb, resource: string, now: Time)
    requires issued <= now <= NO_EXPIRY
    requires forall a <- anon :: a.expires != Some(now)
    ensures Allows(RowsOf(AnonEntries(LiveAnon(anon, issued)), firstId), verb, resource, now) <==>
            AnonAllows(anon, verb, resource, now)
  {
    hide MatchesPattern, Allows, RowsOf, AnonEntries, LiveAnon;
    SnapshotAllows(anon, issued, firstId, verb, resource, now);
    assert forall a <- anon :: AnonLive(a, now) <==> AnonLive(a, issued) && now <= WorksUntil(a);
  }

  lemma AnonTokenStores(db: Db, c: Context, bearer: string, ttl: Time)
    requires Serve(db, c, bearer, AnonTokenRequest(ttl)).1.Issued?
    ensures Serve(db, c, bearer, AnonTokenRequest(ttl)) ==
            (AddCapability(Arrive(db, c), None, Some(c.raws.at + ttl), AnonEntries(LiveAnon(db.anon, c.now)), c.raws),
             Issued(CAPABILITY_PREFIX + c.raws.a))
  {
    hide LiveAnon, AnonEntries, InsertCapability;
  }

  /** Anonymous tokens are faithful snapshots: whatever happens after the issue, at any time from
      then until the sentinel that is not an anonymous permission's expiry instant, `Check` on
      the token says what the anonymous check over the set as it stood at issue says. */
  lemma AnonTokenIsSnapshot(db: Db, c: Context, bearer: string, ttl: Time, events: seq<Event>,
                            verb: Verb, resource: string, now: Time)
    requires Sound(db) && Feasible(db, c) && ttl >= 0
    requires Serve(db, c, bearer, AnonTokenRequest(ttl)).1.Issued?
    requires FeasibleRun(Serve(db, c, bearer, AnonTokenRequest(ttl)).0, events)
    requires c.now <= now <= NO_EXPIRY && forall a <- db.anon :: a.expires != Some(now)
    ensures var (db', answer) := Serve(db, c, bearer, AnonTokenRequest(ttl));
            && ResolveCapability(db', answer.token, c.now) == Some(db.nextId)
            && CheckPrincipal(Run(db', events), Token(db.nextId), verb, resource, now) ==
               Ok(AnonAllows(db.anon, verb, resource, now))
  {
    hide Sound, Keeps, Serve, Run, FeasibleRun, Allows, AnonAllows, RowsOf, LiveAnon, AnonEntries, ResolveCapability,
         AddCapability;
    var db0 := Arrive(db, c);
    ArriveKeeps(db, c);
    KeptIsSound(db, db0);
    AnonTokenStores(db, c, bearer, ttl);
    var entries := AnonEntries(LiveAnon(db.anon, c.now));
    var db' := AddCapability(db0, None, Some(c.raws.at + ttl), entries, c.raws);
    TokenResolves(db0, None, Some(c.raws.at + ttl), entries, c.raws, c.now);
    AddCapabilityKeeps(db0, None, Some(c.raws.at + ttl), entries, c.raws);
    KeptIsSound(db0, db');
    CapabilityIdBounded(db0, None, Some(c.raws.at + ttl), entries, c.raws);
    TokensAreImmutable(db', events, db.nextId);
    SnapshotAgrees(db.anon, c.now, db.nextId + 1, verb, resource, now);
  }
}
