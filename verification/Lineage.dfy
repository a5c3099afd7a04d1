/** How long one login lasts: the sessions descended from it by refreshing. */
module Lineage {
  import opened Strings
  import opened Authz
  import opened Access
  import opened AccessInvariants
  import opened Sync
  import opened Credentials
  import opened Locality

  /** Where a session comes from: the session its login made, the number of refreshes between the
      two, and the time these took between testing the old session and making the new one. */
  datatype Line = Line(root: nat, generation: nat, delay: Time)

  /** A login: when it was, how many of its refreshes succeeded, how many were left half done, and
      the time all these took. */
  datatype Tally = Tally(since: Time, refreshes: nat, halves: nat, delays: Time)

  /** A genealogy kept beside the tables; a login is known by the session it made. */
  datatype Family = Family(lines: map<nat, Line>, logins: map<nat, Tally>)

  const NO_FAMILY := Family(map[], map[])

  /** The session a request inserted, if it did. */
  function Inserted(db: Db, db': Db): Option<nat> {
    if db'.nextId >= 1 && db'.nextId - 1 in db'.sessions && db'.nextId - 1 !in db.sessions
    then Some(db'.nextId - 1) else None
  }

  predicate HasLineage(f: Family, id: nat) {
    id in f.lines && f.lines[id].root in f.logins
  }

  function LoginOf(f: Family, id: nat): Tally
    requires HasLineage(f, id)
  {
    f.logins[f.lines[id].root]
  }

  function Born(f: Family, id: nat, at: Time): Family {
    Family(f.lines[id := Line(id, 0, 0)], f.logins[id := Tally(at, 0, 0, 0)])
  }

  function Descended(f: Family, id: nat, parent: nat, succeeded: bool, lag: Time): Family
    requires HasLineage(f, parent)
  {
    var p, t := f.lines[parent], LoginOf(f, parent);
    var t' := t.(delays := t.delays + lag);
    Family(f.lines[id := Line(p.root, p.generation + 1, p.delay + lag)],
           f.logins[p.root := if succeeded then t'.(refreshes := t.refreshes + 1) else t'.(halves := t.halves + 1)])
  }

  /** How long a request takes between its tests and what it stores. */
  function Lag(c: Context): Time {
    c.raws.at - c.now
  }

  /** The genealogy after an event. */
  ghost function Track(f: Family, db: Db, e: Event): Family
    requires FeasibleEvent(db, e)
  {
    if e.Synchronise? then f
    else
      var (db', answer) := Serve(db, e.c, e.bearer, e.r);
      var id := Inserted(db, db');
      if id.None? then f
      else if e.r.LoginRequest? then Born(f, id.value, e.c.raws.at)
      else if e.r.RefreshRequest? then
        var parent := Refreshable(Arrive(db, e.c), e.r.token);
        if parent.Some? && HasLineage(f, parent.value)
        then Descended(f, id.value, parent.value, answer.Tokens?, Lag(e.c)) else f
      else f
  }

  // -------------------------------------------------------------------- what is kept

  ghost predicate Documented(f: Family, db: Db) {
    && (forall id <- f.lines :: id < db.nextId && f.lines[id].root < db.nextId)
    && (forall id <- db.sessions :: HasLineage(f, id))
  }

  /** Fifteen minutes for the login and for each refresh after it, and the time these took. */
  function Deadline(since: Time, refreshes: nat, delays: Time): Time {
    since + SESSION_LIFETIME * (refreshes + 1) + delays
  }

  function Limit(f: Family, id: nat): Time
    requires HasLineage(f, id)
  {
    Deadline(LoginOf(f, id).since, f.lines[id].generation, f.lines[id].delay)
  }

  /** A session that is not logged out expires within its lineage's limit; a logged-out one has
      expired already, wherever its stored expiry was moved to. */
  predicate Timely(f: Family, id: nat, s: Session)
    requires HasLineage(f, id)
  {
    s.refreshHash != Blank ==> s.expiresAt <= Limit(f, id)
  }

  /** No session is further down, or was longer under way, than the refreshes of its login. */
  predicate Counted(f: Family, id: nat)
    requires HasLineage(f, id)
  {
    var t := LoginOf(f, id);
    f.lines[id].generation <= t.refreshes + t.halves && f.lines[id].delay <= t.delays
  }

  ghost predicate Bounded(f: Family, db: Db) {
    Documented(f, db) && forall id <- db.sessions :: Timely(f, id, db.sessions[id]) && Counted(f, id)
  }

  predicate Live(db: Db, id: nat)
    requires id in db.sessions
  {
    db.clock <= db.sessions[id].expiresAt
  }

  /** No two live sessions descend from one login. */
  ghost predicate Single(f: Family, db: Db) {
    && Documented(f, db)
    && forall a <- db.sessions, b <- db.sessions ::
         Live(db, a) && Live(db, b) && f.lines[a].root == f.lines[b].root ==> a == b
  }

  predicate Unhalved(f: Family) {
    forall r <- f.logins :: f.logins[r].halves == 0
  }

  // ------------------------------------------------------------- effects on sessions

  /** No session appears, and those that remain are the same or invalidated. */
  ghost predicate Quiet(db: Db, db': Db) {
    && db.nextId <= db'.nextId && db.clock <= db'.clock
    && forall id <- db'.sessions :: id in db.sessions && SameSession(db.sessions[id], db'.sessions[id], db'.clock)
  }

  lemma QuietTransitively(a: Db, b: Db, c: Db)
    requires Quiet(a, b) && Quiet(b, c)
    ensures Quiet(a, c)
  {}

  lemma DeleteUserIsQuiet(db: Db, name: string, writes: nat)
    ensures Quiet(db, DeleteUser(db, name, writes).0)
  {
    hide FindUser;
  }

  lemma AdminIsQuiet(db: Db, r: Request, bootstrap: bool, writes: nat)
    requires AdminVerb(r).Some?
    ensures Quiet(db, HandleAdmin(db, r, bootstrap, writes).0)
  {
    hide DeleteUser, CreateUser, Grant, Revoke, AddAnon, DeleteAnon, HeldBy;
    if r.DeleteUserRequest? {
      DeleteUserIsQuiet(db, r.name, writes);
    } else {
      AdminIsLocal(db, r, bootstrap, writes);
    }
  }

  lemma OwnIsQuiet(db: Db, userId: nat, r: Request, raws: Raws, writes: nat)
    requires userId in db.users && db.clock <= raws.at
    ensures Quiet(db, HandleOwn(db, userId, r, raws, writes).0)
  {
    hide HandleOwn, HeldBy;
    OwnIsLocal(db, userId, r, raws, writes);
    OwnReadsClock(db, userId, r, raws, writes);
  }

  lemma OwnReadsClock(db: Db, userId: nat, r: Request, raws: Raws, writes: nat)
    requires userId in db.users
    ensures var db' := HandleOwn(db, userId, r, raws, writes).0; db'.clock == db.clock || db'.clock == raws.at
  {
    hide DelegationRefusal, RowsOf;
  }

  lemma HandleIsQuiet(db: Db, who: Identity, bearer: string, r: Request, raws: Raws, writes: nat)
    requires !r.RefreshRequest? && db.clock <= raws.at
    ensures Quiet(db, Handle(db, who, bearer, r, raws, writes).0)
  {
    hide HandleAdmin, HandleOwn, RequireMeta;
    if AdminVerb(r).Some? { AdminIsQuiet(db, r, false, writes); }
    if UserOf(who).Some? && UserOf(who).value in db.users { OwnIsQuiet(db, UserOf(who).value, r, raws, writes); }
  }

  lemma AnonTokenIsQuiet(db: Db, ttl: Time, raws: Raws, writes: nat)
    requires db.clock <= raws.at
    ensures Quiet(db, AnonToken(db, ttl, raws, writes).0)
  {
    hide LiveAnon, RowsOf, AnonEntries;
  }

  lemma OthersAreQuiet(db: Db, c: Context, bearer: string, r: Request)
    requires Sound(db) && Feasible(db, c) && !r.LoginRequest? && !r.RefreshRequest?
    ensures Quiet(db, Serve(db, c, bearer, r).0)
  {
    hide Sound, Keeps, HandleAdmin, Handle, Authenticate, AnonToken, Quiet;
    var db0 := Arrive(db, c);
    ArriveKeeps(db, c);
    KeptIsSound(db, db0);
    ArriveIsQuiet(db, c);
    SameSessionsAreQuiet(db0, db0);
    if r.AnonTokenRequest? {
      AnonTokenIsQuiet(db0, r.ttl, c.raws, c.writes);
    } else if IsBootstrap(c, bearer, r) {
      AdminIsQuiet(db0, r, true, c.writes);
    } else if bearer != "" {
      var (db1, who, left) := Authenticate(db0, bearer, c.review, c.writes);
      AuthenticateSessions(db0, bearer, c.review, c.writes, "");
      AuthenticateKeeps(db0, bearer, c.review, c.writes);
      KeptIsSound(db0, db1);
      SameSessionsAreQuiet(db0, db1);
      if who.Some? {
        HandleIsQuiet(db1, who.value, bearer, r, c.raws, left);
        QuietTransitively(db0, db1, Handle(db1, who.value, bearer, r, c.raws, left).0);
      }
    }
    QuietTransitively(db, db0, Serve(db, c, bearer, r).0);
  }

  lemma {:induction false} SyncIsQuiet(db: Db, entries: seq<SaEntry>, writes: seq<nat>)
    requires |writes| == |entries|
    ensures var db' := ApplySync(db, entries, writes);
            db'.sessions == db.sessions && db'.clock == db.clock && db.nextId <= db'.nextId
    decreases |entries|
  {
    hide Filtered, RowsOf, FindSa;
    if entries != [] { SyncIsQuiet(SyncOne(db, entries[0], writes[0]).0, entries[1..], writes[1..]); }
  }

  lemma QuietKeepsBounds(f: Family, db: Db, db': Db)
    requires Bounded(f, db) && Quiet(db, db')
    ensures Bounded(f, db')
  {}

  lemma QuietKeepsSingle(f: Family, db: Db, db': Db)
    requires Single(f, db) && Quiet(db, db')
    ensures Single(f, db')
  {
    assert forall id <- db'.sessions :: Live(db', id) ==> Live(db, id);
  }

  // -------------------------------------------------------------- logins and refreshes

  lemma BornKeeps(f: Family, db: Db, userId: nat, raws: Raws)
    requires Bounded(f, db) && SessionsBelow(db)
    ensures var db' := AddSession(db, userId, raws);
            Bounded(Born(f, db.nextId, raws.at), db') && Inserted(db, db') == Some(db.nextId)
  {
    var f', db' := Born(f, db.nextId, raws.at), AddSession(db, userId, raws);
    forall id | id in db'.sessions ensures HasLineage(f', id) && Timely(f', id, db'.sessions[id]) && Counted(f', id) {
      if id != db.nextId { assert Timely(f, id, db.sessions[id]) && Counted(f, id); }
    }
  }

  lemma BornIsSingle(f: Family, db: Db, userId: nat, raws: Raws)
    requires Single(f, db) && SessionsBelow(db) && db.clock <= raws.at
    ensures Single(Born(f, db.nextId, raws.at), AddSession(db, userId, raws))
  {
    var f', db' := Born(f, db.nextId, raws.at), AddSession(db, userId, raws);
    assert forall id <- db.sessions ::
        HasLineage(f', id) && f'.lines[id] == f.lines[id] && (Live(db', id) ==> Live(db, id));
  }

  ghost predicate SessionsBelow(db: Db) {
    forall id <- db.sessions :: id < db.nextId
  }

  lemma SoundSessionsBelow(db: Db)
    requires Sound(db)
    ensures SessionsBelow(db)
  {}

  lemma DescendedKeeps(f: Family, db: Db, parent: nat, raws: Raws, succeeded: bool)
    requires Bounded(f, db) && SessionsBelow(db) && db.clock <= raws.at
    requires parent in db.sessions && db.sessions[parent].refreshHash != Blank && Live(db, parent)
    ensures var db' := AddSession(db, db.sessions[parent].userId, raws);
            Bounded(Descended(f, db.nextId, parent, succeeded, raws.at - db.clock), db')
  {
    var lag, db' := raws.at - db.clock, AddSession(db, db.sessions[parent].userId, raws);
    var f' := Descended(f, db.nextId, parent, succeeded, lag);
    assert Timely(f, parent, db.sessions[parent]) && Counted(f, parent);
    assert HasLineage(f', db.nextId) && Limit(f', db.nextId) == Limit(f, parent) + SESSION_LIFETIME + lag;
    forall id | id in db'.sessions ensures HasLineage(f', id) && Timely(f', id, db'.sessions[id]) && Counted(f', id) {
      if id != db.nextId {
        assert Timely(f, id, db.sessions[id]) && Counted(f, id) && f'.lines[id] == f.lines[id];
        assert Limit(f', id) == Limit(f, id);
      }
    }
  }

  lemma DescendedRows(f: Family, db: Db, db': Db, parent: nat, raws: Raws, succeeded: bool, lag: Time)
    requires Documented(f, db) && SessionsBelow(db) && db.clock <= raws.at && parent in db.sessions
    requires var db1 := AddSession(db, db.sessions[parent].userId, raws);
             db' == db1 || db' == DeleteSession(db1, parent)
    ensures var f' := Descended(f, db.nextId, parent, succeeded, lag);
            && Documented(f', db')
            && db.nextId in db'.sessions && Live(db', db.nextId) && f'.lines[db.nextId].root == f.lines[parent].root
            && (forall id <- db'.sessions :: id != db.nextId ==>
                  id in db.sessions && f'.lines[id] == f.lines[id] && db'.sessions[id] == db.sessions[id])
            && db'.clock == raws.at && parent != db.nextId
  {
    var f' := Descended(f, db.nextId, parent, succeeded, lag);
    assert forall id <- f.lines :: id < db.nextId && f.lines[id].root < db.nextId;
    assert forall id <- db'.sessions :: HasLineage(f', id);
  }

  /** A new session beside the others of its login: single exactly when the one it came from has
      gone or has expired. */
  lemma DescendedIsSingle(f: Family, db: Db, db': Db, parent: nat, raws: Raws, succeeded: bool, lag: Time)
    requires Single(f, db) && SessionsBelow(db) && db.clock <= raws.at && parent in db.sessions && Live(db, parent)
    requires var db1 := AddSession(db, db.sessions[parent].userId, raws);
             db' == db1 || db' == DeleteSession(db1, parent)
    ensures Single(Descended(f, db.nextId, parent, succeeded, lag), db') <==>
            !(parent in db'.sessions && raws.at <= db.sessions[parent].expiresAt)
  {
    hide Descended, AddSession, DeleteSession;
    var f' := Descended(f, db.nextId, parent, succeeded, lag);
    DescendedRows(f, db, db', parent, raws, succeeded, lag);
    assert forall id <- db'.sessions :: id != db.nextId && Live(db', id) ==> Live(db, id);
    if parent in db'.sessions && raws.at <= db.sessions[parent].expiresAt {
      assert Live(db', parent) && f'.lines[parent].root == f'.lines[db.nextId].root;
    }
  }

  // ---------------------------------------------------------------------- every run

  /** A refresh that would succeed but for its second write: the caller is authenticated, the
      token can be refreshed, and only the insert gets through. */
  ghost predicate HalfRefresh(db: Db, e: Event) {
    && e.Call? && e.r.RefreshRequest? && e.bearer != ""
    && var (db1, who, left) := Authenticate(Arrive(db, e.c), e.bearer, e.c.review, e.c.writes);
       who.Some? && left == 1 && Refreshable(db1, e.r.token).Some?
  }

  /** ... and the session it was to replace has not expired by the time the new one is made. */
  ghost predicate DoublingRefresh(db: Db, e: Event) {
    && HalfRefresh(db, e)
    && var db1 := Authenticate(Arrive(db, e.c), e.bearer, e.c.review, e.c.writes).0;
       e.c.raws.at <= db1.sessions[Refreshable(db1, e.r.token).value].expiresAt
  }

  lemma ArriveIsQuiet(db: Db, c: Context)
    requires db.clock <= c.now
    ensures Quiet(db, Arrive(db, c))
  {}

  lemma LoginTracks(f: Family, db: Db, e: Event)
    requires Sound(db) && FeasibleEvent(db, e) && Bounded(f, db) && e.Call? && e.r.LoginRequest?
    ensures Bounded(Track(f, db, e), After(db, e))
    ensures Single(f, db) ==> Single(Track(f, db, e), After(db, e))
    ensures Unhalved(f) ==> Unhalved(Track(f, db, e))
  {
    hide Sound, Bounded, Single, Quiet, AddSession, InsertSession, Inserted, FindUser;
    var db0 := Arrive(db, e.c);
    ArriveIsQuiet(db, e.c);
    QuietKeepsBounds(f, db, db0);
    if Single(f, db) { QuietKeepsSingle(f, db, db0); }
    SoundSessionsBelow(db);
    var u := FindUser(db0, e.r.name);
    DrawTracks(f, db0, e.c.raws);
    if u.Some? {
      BornKeeps(f, db0, u.value, e.c.raws);
      if Single(f, db0) { BornIsSingle(f, db0, u.value, e.c.raws); }
      SameAsAddSession(db0, u.value, e.c.raws);
    }
    InsertedSince(db, db0, After(db, e));
  }

  lemma SameAsAddSession(db: Db, userId: nat, raws: Raws)
    ensures InsertSession(Draw(db, raws), userId, raws) == AddSession(db, userId, raws)
  {}

  /** Drawing random strings, or nothing at all, inserts no session. */
  lemma DrawTracks(f: Family, db: Db, raws: Raws)
    requires Bounded(f, db) && db.clock <= raws.at
    ensures Bounded(f, Draw(db, raws)) && Inserted(db, db).None? && Inserted(db, Draw(db, raws)).None?
    ensures Single(f, db) ==> Single(f, Draw(db, raws))
  {
    hide Bounded, Single;
    SameSessionsAreQuiet(db, Draw(db, raws));
    QuietKeepsBounds(f, db, Draw(db, raws));
    if Single(f, db) { QuietKeepsSingle(f, db, Draw(db, raws)); }
  }

  lemma InsertedSince(db: Db, db0: Db, db': Db)
    requires db0.sessions == db.sessions
    ensures Inserted(db, db') == Inserted(db0, db')
  {}

  lemma RefreshTracks(f: Family, db: Db, token: string, raws: Raws, writes: nat)
    requires Sound(db) && Bounded(f, db) && db.clock <= raws.at
    ensures var (db', answer) := Refresh(db, token, raws, writes);
            var parent := Refreshable(db, token);
            var id := Inserted(db, db');
            && (id.Some? <==> parent.Some? && writes > 0)
            && if id.None? then Bounded(f, db') && (Single(f, db) ==> Single(f, db'))
            else
              && parent.Some? && parent.value in db.sessions && HasLineage(f, parent.value)
              && (answer.Tokens? <==> writes >= 2)
              && var f' := Descended(f, id.value, parent.value, answer.Tokens?, raws.at - db.clock);
                 && Bounded(f', db')
                 && (Single(f, db) ==>
                       (Single(f', db') <==> !(writes == 1 && raws.at <= db.sessions[parent.value].expiresAt)))
  {
    hide Sound, Bounded, Single, Descended, AddSession, DeleteSession, InsertSession, Inserted, HasLineage;
    SoundSessionsBelow(db);
    DrawTracks(f, db, raws);
    BoundedIsDocumented(f, db);
    var parent, lag := Refreshable(db, token), raws.at - db.clock;
    if parent.Some? && token != "" && writes > 0 {
      var p := parent.value;
      RefreshableRow(db, token);
      SameAsAddSession(db, db.sessions[p].userId, raws);
      var db1 := AddSession(db, db.sessions[p].userId, raws);
      DescendedKeeps(f, db, p, raws, writes >= 2);
      InsertedHere(db, p, raws);
      if writes >= 2 { DeleteKeepsBounds(Descended(f, db.nextId, p, true, lag), db1, p); }
      if Single(f, db) {
        DescendedIsSingle(f, db, Refresh(db, token, raws, writes).0, p, raws, writes >= 2, lag);
        ParentRemains(db, p, raws);
      }
    }
  }

  lemma ParentRemains(db: Db, parent: nat, raws: Raws)
    requires parent in db.sessions
    ensures var db1 := AddSession(db, db.sessions[parent].userId, raws);
            parent in db1.sessions && parent !in DeleteSession(db1, parent).sessions
  {}

  lemma BoundedIsDocumented(f: Family, db: Db)
    requires Bounded(f, db)
    ensures Documented(f, db)
    ensures forall id <- db.sessions :: HasLineage(f, id)
  {}

  lemma RefreshableRow(db: Db, token: string)
    requires Refreshable(db, token).Some?
    ensures var s := db.sessions[Refreshable(db, token).value];
            s.refreshHash == Of(token) && db.clock <= s.expiresAt
  {}

  lemma InsertedHere(db: Db, parent: nat, raws: Raws)
    requires SessionsBelow(db) && parent in db.sessions
    ensures var db1 := AddSession(db, db.sessions[parent].userId, raws);
            Inserted(db, db1) == Some(db.nextId) && Inserted(db, DeleteSession(db1, parent)) == Some(db.nextId)
  {}

  lemma DeleteKeepsBounds(f: Family, db: Db, id: nat)
    requires Bounded(f, db)
    ensures Bounded(f, DeleteSession(db, id))
  {}

  /** Authentication changes nothing that the genealogy depends on. */
  lemma BeforeRefresh(f: Family, db: Db, e: Event)
    requires Sound(db) && FeasibleEvent(db, e) && Bounded(f, db) && e.Call? && e.r.RefreshRequest?
    ensures var db0 := Arrive(db, e.c);
            var (db1, who, left) := Authenticate(db0, e.bearer, e.c.review, e.c.writes);
            && Sound(db1) && Bounded(f, db1) && (Single(f, db) ==> Single(f, db1))
            && db1.sessions == db.sessions && Refreshable(db1, e.r.token) == Refreshable(db0, e.r.token)
            && db1.clock == e.c.now && Bounded(f, db0) && (Single(f, db) ==> Single(f, db0))
  {
    hide Sound, Bounded, Single, Quiet, Keeps, Refreshable, Authenticate;
    var db0 := Arrive(db, e.c);
    ArriveIsQuiet(db, e.c);
    ArriveKeeps(db, e.c);
    KeptIsSound(db, db0);
    QuietKeepsBounds(f, db, db0);
    if Single(f, db) { QuietKeepsSingle(f, db, db0); }
    var (db1, who, left) := Authenticate(db0, e.bearer, e.c.review, e.c.writes);
    AuthenticateKeeps(db0, e.bearer, e.c.review, e.c.writes);
    KeptIsSound(db0, db1);
    AuthenticateSessions(db0, e.bearer, e.c.review, e.c.writes, e.r.token);
    SameSessionsAreQuiet(db0, db1);
    QuietKeepsBounds(f, db0, db1);
    if Single(f, db0) { QuietKeepsSingle(f, db0, db1); }
  }

  lemma RefreshEventTracks(f: Family, db: Db, e: Event)
    requires Sound(db) && FeasibleEvent(db, e) && Bounded(f, db) && e.Call? && e.r.RefreshRequest?
    ensures Bounded(Track(f, db, e), After(db, e))
    ensures Single(f, db) ==> (Single(Track(f, db, e), After(db, e)) <==> !DoublingRefresh(db, e))
    ensures Unhalved(f) && !HalfRefresh(db, e) ==> Unhalved(Track(f, db, e))
  {
    hide Sound, Bounded, Single, Inserted, Descended, Refresh, Documented, Refreshable, Authenticate, Unhalved;
    BeforeRefresh(f, db, e);
    var db0, db' := Arrive(db, e.c), After(db, e);
    var (db1, who, left) := Authenticate(db0, e.bearer, e.c.review, e.c.writes);
    InsertedSince(db, db0, db');
    InsertedSince(db, db1, db');
    DrawTracks(f, db0, e.c.raws);
    DrawTracks(f, db1, e.c.raws);
    BoundedIsDocumented(f, db1);
    RefreshTracks(f, db1, e.r.token, e.c.raws, left);
    if Unhalved(f) { SucceedingIsUnhalved(f); }
  }

  lemma SucceedingIsUnhalved(f: Family)
    requires Unhalved(f)
    ensures forall id: nat, parent: nat, lag: Time {:trigger Descended(f, id, parent, true, lag)} ::
              HasLineage(f, parent) ==> Unhalved(Descended(f, id, parent, true, lag))
  {}

  lemma SameSessionsAreQuiet(db: Db, db': Db)
    requires db'.sessions == db.sessions && db.nextId <= db'.nextId && db.clock <= db'.clock
    ensures Quiet(db, db')
  {}

  lemma QuietTracks(f: Family, db: Db, e: Event)
    requires FeasibleEvent(db, e) && Quiet(db, After(db, e))
    ensures Track(f, db, e) == f
  {
    hide Serve, ApplySync;
  }

  /** Every event keeps the bounds, and keeps each login to one live session exactly when it is not
      a half-done refresh of a session still good. */
  lemma EventTracks(f: Family, db: Db, e: Event)
    requires Sound(db) && FeasibleEvent(db, e) && Bounded(f, db)
    ensures Bounded(Track(f, db, e), After(db, e))
    ensures Single(f, db) ==> (Single(Track(f, db, e), After(db, e)) <==> !DoublingRefresh(db, e))
    ensures Unhalved(f) && !HalfRefresh(db, e) ==> Unhalved(Track(f, db, e))
  {
    hide Sound, Bounded, Single, Quiet, Track, Serve, ApplySync, Unhalved;
    if e.Call? && e.r.LoginRequest? {
      LoginTracks(f, db, e);
    } else if e.Call? && e.r.RefreshRequest? {
      RefreshEventTracks(f, db, e);
    } else {
      if e.Call? {
        OthersAreQuiet(db, e.c, e.bearer, e.r);
      } else {
        SyncIsQuiet(db, e.entries, e.writes);
        SameSessionsAreQuiet(db, After(db, e));
      }
      QuietTracks(f, db, e);
      QuietKeepsBounds(f, db, After(db, e));
      if Single(f, db) { QuietKeepsSingle(f, db, After(db, e)); }
    }
  }

  /** The genealogy at the end of a run. */
  ghost function Follow(f: Family, db: Db, events: seq<Event>): Family
    requires FeasibleRun(db, events)
    decreases |events|
  {
    if events == [] then f else Follow(Track(f, db, events[0]), After(db, events[0]), events[1..])
  }

  /** No refresh of the run is left half done. */
  ghost predicate NoHalfRefresh(db: Db, events: seq<Event>)
    requires FeasibleRun(db, events)
    decreases |events|
  {
    events != [] ==> !HalfRefresh(db, events[0]) && NoHalfRefresh(After(db, events[0]), events[1..])
  }

  /** None is left half done while the session it was to replace is still good. */
  ghost predicate NoDoubling(db: Db, events: seq<Event>)
    requires FeasibleRun(db, events)
    decreases |events|
  {
    events != [] ==> !DoublingRefresh(db, events[0]) && NoDoubling(After(db, events[0]), events[1..])
  }

  lemma {:induction false} RunTracks(f: Family, db: Db, events: seq<Event>)
    requires Sound(db) && Bounded(f, db) && FeasibleRun(db, events)
    ensures Bounded(Follow(f, db, events), Run(db, events))
    ensures Single(f, db) && NoDoubling(db, events) ==> Single(Follow(f, db, events), Run(db, events))
    ensures Unhalved(f) && NoHalfRefresh(db, events) ==> Unhalved(Follow(f, db, events))
    decreases |events|
  {
    hide Sound, Bounded, Single, Unhalved, Track, After, Keeps, HalfRefresh, DoublingRefresh;
    if events != [] {
      var e := events[0];
      EventTracks(f, db, e);
      EventKeeps(db, e);
      KeptIsSound(db, After(db, e));
      RunTracks(Track(f, db, e), After(db, e), events[1..]);
    }
  }

  lemma StartsBounded(clock: Time)
    ensures Bounded(NO_FAMILY, Initial(clock)) && Single(NO_FAMILY, Initial(clock)) && Unhalved(NO_FAMILY)
  {}

  // ------------------------------------------------------------------ accepted tokens

  /** The kinds of token a session row stores. */
  predicate OfSession(k: Kind) {
    k.SessionKind? || k.RefreshKind?
  }

  /** The session row that stores the token as this kind. */
  function RowOf(db: Db, token: string, k: Kind): Option<nat> {
    if k.SessionKind? then FindSession(db, Of(token)) else FindRefresh(db, Of(token))
  }

  lemma AcceptedRow(db: Db, token: string, k: Kind, now: Time)
    requires OfSession(k) && AcceptedAs(db, token, k, now)
    ensures RowOf(db, token, k).Some?
    ensures var id := RowOf(db, token, k).value;
            && id in db.sessions && now <= db.sessions[id].expiresAt
            && (if k.SessionKind? then db.sessions[id].tokenHash else db.sessions[id].refreshHash) == Of(token)
  {
    assert FindRefresh(db.(clock := now), Of(token)) == FindRefresh(db, Of(token));
  }

  /** A row that is still accepted is not a logged-out one. */
  lemma LiveRow(db: Db, id: nat, now: Time)
    requires Sound(db) && id in db.sessions && db.clock <= now <= db.sessions[id].expiresAt
    ensures db.sessions[id].refreshHash != Blank
  {
    hide PatsSound, CapsSound, SasSound, HeldSound;
    assert SessionSound(db.sessions[id], db.users.Keys, db.used, db.clock);
  }

  lemma BoundedRow(f: Family, db: Db, id: nat)
    requires Bounded(f, db) && id in db.sessions && db.sessions[id].refreshHash != Blank
    ensures HasLineage(f, id) && db.sessions[id].expiresAt <= Limit(f, id) && Counted(f, id)
  {}

  /** In every run, with or without failed writes, a session or refresh token accepted at some
      time descends from a login, and that time is within fifteen minutes times one more than its
      generation, plus the time the refreshes between took. The generation is at most the number
      of refreshes of that login, which all succeeded if none was left half done. */
  lemma AcceptedWithinLimit(clock: Time, events: seq<Event>, token: string, k: Kind, now: Time)
    requires FeasibleRun(Initial(clock), events) && OfSession(k)
    requires var db := Run(Initial(clock), events); db.clock <= now && AcceptedAs(db, token, k, now)
    ensures var db := Run(Initial(clock), events);
            var f := Follow(NO_FAMILY, Initial(clock), events);
            && RowOf(db, token, k).Some? && HasLineage(f, RowOf(db, token, k).value)
            && var line, login := f.lines[RowOf(db, token, k).value], LoginOf(f, RowOf(db, token, k).value);
               && now <= Deadline(login.since, line.generation, line.delay)
               && now <= Deadline(login.since, login.refreshes + login.halves, login.delays)
               && (NoHalfRefresh(Initial(clock), events) ==> login.halves == 0)
  {
    hide Run, Follow, Keeps, Sound, Bounded, AcceptedAs, RowOf, NoHalfRefresh;
    var db0 := Initial(clock);
    var db := Run(db0, events);
    InitialIsSound(clock);
    StartsBounded(clock);
    RunTracks(NO_FAMILY, db0, events);
    RunKeeps(db0, events);
    KeptIsSound(db0, db);
    AcceptedRow(db, token, k, now);
    LiveRow(db, RowOf(db, token, k).value, now);
    BoundedRow(Follow(NO_FAMILY, db0, events), db, RowOf(db, token, k).value);
  }

  /** When no refresh of a session still good is left half done, at any time each login has at most
      one accepted session token and one accepted refresh token, both of one session. */
  lemma OneSessionPerLogin(clock: Time, events: seq<Event>, a: string, ka: Kind, b: string, kb: Kind, now: Time)
    requires FeasibleRun(Initial(clock), events) && NoDoubling(Initial(clock), events)
    requires OfSession(ka) && OfSession(kb)
    requires var db := Run(Initial(clock), events);
             db.clock <= now && AcceptedAs(db, a, ka, now) && AcceptedAs(db, b, kb, now)
    ensures var db := Run(Initial(clock), events);
            var f := Follow(NO_FAMILY, Initial(clock), events);
            && RowOf(db, a, ka).Some? && RowOf(db, b, kb).Some?
            && var x, y := RowOf(db, a, ka).value, RowOf(db, b, kb).value;
               && HasLineage(f, x) && HasLineage(f, y)
               && (f.lines[x].root == f.lines[y].root ==> x == y && (ka == kb ==> a == b))
  {
    hide Run, Follow, Sound, Keeps, Single, Bounded, AcceptedAs, RowOf, NoDoubling, HasLineage;
    var db0 := Initial(clock);
    StartsBounded(clock);
    InitialIsSound(clock);
    RunTracks(NO_FAMILY, db0, events);
    var db, f := Run(db0, events), Follow(NO_FAMILY, db0, events);
    AcceptedRow(db, a, ka, now);
    AcceptedRow(db, b, kb, now);
    SingleRows(f, db, RowOf(db, a, ka).value, RowOf(db, b, kb).value);
  }

  lemma SingleRows(f: Family, db: Db, x: nat, y: nat)
    requires Single(f, db) && x in db.sessions && y in db.sessions && Live(db, x) && Live(db, y)
    ensures HasLineage(f, x) && HasLineage(f, y)
    ensures f.lines[x].root == f.lines[y].root ==> x == y
  {}

  // ------------------------------------------------------------ exactly when there is one

  predicate SameLogin(f: Family, x: Option<nat>, y: Option<nat>) {
    && x.Some? && x.value in f.lines && y.Some? && y.value in f.lines
    && f.lines[x.value].root == f.lines[y.value].root
  }

  /** No two session tokens of one login are accepted now. */
  ghost predicate OneSession(f: Family, db: Db) {
    forall a: string, b: string ::
      (&& AcceptedAs(db, a, SessionKind, db.clock) && AcceptedAs(db, b, SessionKind, db.clock)
       && SameLogin(f, FindSession(db, Of(a)), FindSession(db, Of(b))))
      ==> a == b
  }

  lemma SingleHasOneSession(f: Family, db: Db)
    requires Single(f, db)
    ensures OneSession(f, db)
  {
    hide Single, AcceptedAs;
    forall a: string, b: string |
      AcceptedAs(db, a, SessionKind, db.clock) && AcceptedAs(db, b, SessionKind, db.clock) &&
      SameLogin(f, FindSession(db, Of(a)), FindSession(db, Of(b)))
      ensures a == b
    {
      AcceptedRow(db, a, SessionKind, db.clock);
      AcceptedRow(db, b, SessionKind, db.clock);
      SingleRows(f, db, FindSession(db, Of(a)).value, FindSession(db, Of(b)).value);
    }
  }

  /** A session row that has not expired has an accepted token. */
  lemma LiveRowAccepted(db: Db, id: nat) returns (token: string)
    requires Sound(db) && id in db.sessions && Live(db, id)
    ensures db.sessions[id].tokenHash == Of(token)
    ensures AcceptedAs(db, token, SessionKind, db.clock) && FindSession(db, Of(token)) == Some(id)
  {
    hide PatsSound, CapsSound, SasSound, HeldSound;
    assert SessionSound(db.sessions[id], db.users.Keys, db.used, db.clock);
    token := db.sessions[id].tokenHash.token;
    FindsSession(db, id);
  }

  /** One accepted session token for each login is one live row for each. */
  lemma OneSessionIsSingle(f: Family, db: Db)
    requires Sound(db) && Documented(f, db) && OneSession(f, db)
    ensures Single(f, db)
  {
    hide Sound, AcceptedAs, FindSession;
    forall x, y | x in db.sessions && y in db.sessions && Live(db, x) && Live(db, y) &&
      f.lines[x].root == f.lines[y].root
      ensures x == y
    {
      var a := LiveRowAccepted(db, x);
      var b := LiveRowAccepted(db, y);
      assert SameLogin(f, FindSession(db, Of(a)), FindSession(db, Of(b)));
    }
  }

  /** Every event keeps each login to one accepted session exactly when it is not a half-done
      refresh of a session still good; such a refresh leaves two. */
  lemma DoublingLeavesTwo(f: Family, db: Db, e: Event)
    requires Sound(db) && FeasibleEvent(db, e) && Bounded(f, db) && OneSession(f, db)
    ensures OneSession(Track(f, db, e), After(db, e)) <==> !DoublingRefresh(db, e)
  {
    hide Sound, Keeps, Bounded, Single, OneSession, Track, After, DoublingRefresh, Documented;
    BoundedIsDocumented(f, db);
    OneSessionIsSingle(f, db);
    EventTracks(f, db, e);
    var f', db' := Track(f, db, e), After(db, e);
    EventKeeps(db, e);
    KeptIsSound(db, db');
    BoundedIsDocumented(f', db');
    if OneSession(f', db') { OneSessionIsSingle(f', db'); }
    if Single(f', db') { SingleHasOneSession(f', db'); }
  }

  /** At every point of the run each login has at most one accepted session. */
  ghost predicate AlwaysOneSession(f: Family, db: Db, events: seq<Event>)
    requires FeasibleRun(db, events)
    decreases |events|
  {
    && OneSession(f, db)
    && (events != [] ==> AlwaysOneSession(Track(f, db, events[0]), After(db, events[0]), events[1..]))
  }

  lemma {:induction false} OneSessionFrom(f: Family, db: Db, events: seq<Event>)
    requires Sound(db) && Bounded(f, db) && OneSession(f, db) && FeasibleRun(db, events)
    ensures AlwaysOneSession(f, db, events) <==> NoDoubling(db, events)
    decreases |events|
  {
    hide Sound, Bounded, Single, Unhalved, Track, After, Keeps, HalfRefresh, DoublingRefresh, OneSession;
    if events != [] {
      var e := events[0];
      EventTracks(f, db, e);
      EventKeeps(db, e);
      KeptIsSound(db, After(db, e));
      DoublingLeavesTwo(f, db, e);
      if !DoublingRefresh(db, e) { OneSessionFrom(Track(f, db, e), After(db, e), events[1..]); }
    }
  }

  /** A run keeps every login to one accepted session throughout exactly when no refresh of a
      session still good is left half done. */
  lemma OneSessionExactly(clock: Time, events: seq<Event>)
    requires FeasibleRun(Initial(clock), events)
    ensures AlwaysOneSession(NO_FAMILY, Initial(clock), events) <==> NoDoubling(Initial(clock), events)
  {
    hide AlwaysOneSession, NoDoubling, Single, OneSession;
    InitialIsSound(clock);
    StartsBounded(clock);
    SingleHasOneSession(NO_FAMILY, Initial(clock));
    OneSessionFrom(NO_FAMILY, Initial(clock), events);
  }
}
