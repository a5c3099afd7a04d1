/** What every request keeps true of accounts, credentials and permissions, and how the rows
    of one state relate to those of any later one. */
module AccessInvariants {
  import opened Strings
  import opened Authz
  import opened Access

  // -------------------------------------------------------------------- invariants

  /** The digest of a token of this kind drawn before. */
  predicate Drawn(d: Digest, prefix: string, used: set<string>) {
    d.Of? && prefix <= d.token && d.token[|prefix|..] in used
  }

  ghost predicate UsersSound(users: map<nat, UserRow>, next: nat) {
    forall id <- users :: id < next
  }

  ghost predicate SessionSound(s: Session, users: set<nat>, used: set<string>, clock: Time) {
    && s.userId in users
    && Drawn(s.tokenHash, SESSION_PREFIX, used)
    && (s.refreshHash == Blank || Drawn(s.refreshHash, REFRESH_PREFIX, used))
    && (s.refreshHash == Blank ==> s.expiresAt < clock)
  }

  ghost predicate SessionsSound(rows: map<nat, Session>, users: set<nat>, next: nat, used: set<string>, clock: Time) {
    && (forall id <- rows :: id < next && SessionSound(rows[id], users, used, clock))
    && (forall a <- rows, b <- rows :: rows[a].tokenHash == rows[b].tokenHash ==> a == b)
    && (forall a <- rows, b <- rows :: rows[a].refreshHash == rows[b].refreshHash != Blank ==> a == b)
  }

  ghost predicate PatsSound(rows: map<nat, Pat>, users: set<nat>, next: nat, used: set<string>) {
    && (forall id <- rows :: id < next && rows[id].userId in users && Drawn(rows[id].hash, PAT_PREFIX, used))
    && (forall a <- rows, b <- rows :: rows[a].hash == rows[b].hash ==> a == b)
  }

  ghost predicate CapsSound(rows: map<nat, Capability>, users: set<nat>, next: nat, used: set<string>) {
    && (forall id <- rows :: id < next && (rows[id].issuedBy.Some? ==> rows[id].issuedBy.value in users)
                             && Drawn(rows[id].hash, CAPABILITY_PREFIX, used))
    && (forall a <- rows, b <- rows :: rows[a].hash == rows[b].hash ==> a == b)
  }

  /** (namespace, name) identifies a service account. */
  ghost predicate SasSound(rows: map<nat, SaRow>, next: nat) {
    && (forall id <- rows :: id < next)
    && (forall a <- rows, b <- rows :: rows[a] == rows[b] ==> a == b)
  }

  predicate DistinctIds(rows: seq<Permission>) {
    forall i, j :: 0 <= i < j < |rows| ==> rows[i].id != rows[j].id
  }

  ghost predicate RowsSound(rows: seq<Permission>, next: nat) {
    (forall i :: 0 <= i < |rows| ==> rows[i].id < next) && DistinctIds(rows)
  }

  ghost predicate HeldSound(held: map<Owner, seq<Permission>>, next: nat) {
    forall o <- held :: o.id < next && RowsSound(held[o], next)
  }

  ghost predicate Sound(db: Db) {
    && UsersSound(db.users, db.nextId)
    && SessionsSound(db.sessions, db.users.Keys, db.nextId, db.used, db.clock)
    && PatsSound(db.pats, db.users.Keys, db.nextId, db.used)
    && CapsSound(db.caps, db.users.Keys, db.nextId, db.used)
    && SasSound(db.sas, db.nextId)
    && HeldSound(db.held, db.nextId)
  }

  lemma StillSound(db: Db, next: nat, used: set<string>, clock: Time)
    requires Sound(db) && db.nextId <= next && db.used <= used && db.clock <= clock
    ensures Sound(db.(nextId := next, used := used, clock := clock))
  {
    SessionsGrow(db.sessions, db.users.Keys, db.nextId, db.used, db.clock, db.users.Keys, next, used, clock);
    assert HeldSound(db.held, next);
  }

  lemma SessionsGrow(rows: map<nat, Session>, users: set<nat>, next: nat, used: set<string>, clock: Time,
                     users': set<nat>, next': nat, used': set<string>, clock': Time)
    requires SessionsSound(rows, users, next, used, clock)
    requires users <= users' && next <= next' && used <= used' && clock <= clock'
    ensures SessionsSound(rows, users', next', used', clock')
  {
    forall id | id in rows ensures id < next' && SessionSound(rows[id], users', used', clock') {
      assert id < next && SessionSound(rows[id], users, used, clock);
    }
  }

  // --------------------------------------------------------------------- evolution

  /** The digest is of a token of this kind drawn between two states. */
  predicate DrawnSince(d: Digest, prefix: string, used: set<string>, used': set<string>) {
    Drawn(d, prefix, used') && d.token[|prefix|..] !in used
  }

  /** The same session later: it can only have been invalidated. */
  predicate SameSession(s: Session, s': Session, clock': Time) {
    || s' == s
    || (s'.userId == s.userId && s'.tokenHash == s.tokenHash && s'.refreshHash == Blank && s'.expiresAt < clock')
  }

  predicate NewSession(s': Session, used: set<string>, used': set<string>) {
    && DrawnSince(s'.tokenHash, SESSION_PREFIX, used, used')
    && (s'.refreshHash == Blank || DrawnSince(s'.refreshHash, REFRESH_PREFIX, used, used'))
  }

  ghost predicate SessionsEvolve(db: Db, db': Db) {
    forall id <- db'.sessions ::
      || (id in db.sessions && SameSession(db.sessions[id], db'.sessions[id], db'.clock))
      || (id >= db.nextId && NewSession(db'.sessions[id], db.used, db'.used))
  }

  ghost predicate PatsEvolve(db: Db, db': Db) {
    forall id <- db'.pats ::
      || (id in db.pats && db'.pats[id] == db.pats[id])
      || (id >= db.nextId && DrawnSince(db'.pats[id].hash, PAT_PREFIX, db.used, db'.used))
  }

  ghost predicate CapsEvolve(db: Db, db': Db) {
    forall id <- db'.caps ::
      || (id in db.caps && db'.caps[id] == db.caps[id])
      || (id >= db.nextId && DrawnSince(db'.caps[id].hash, CAPABILITY_PREFIX, db.used, db'.used))
  }

  ghost predicate UsersEvolve(db: Db, db': Db) {
    forall id <- db'.users :: (id in db.users && db'.users[id] == db.users[id]) || id >= db.nextId
  }

  /** How any later state relates to an earlier one. */
  ghost predicate Evolves(db: Db, db': Db) {
    && db.clock <= db'.clock && db.nextId <= db'.nextId && db.used <= db'.used
    && SessionsEvolve(db, db') && PatsEvolve(db, db') && CapsEvolve(db, db') && UsersEvolve(db, db')
  }

  ghost predicate SubMap<T>(m: map<nat, T>, of: map<nat, T>) {
    forall id <- m :: id in of && m[id] == of[id]
  }

  /** Tables that only lose rows evolve. */
  lemma LosingRowsEvolves(db: Db, db': Db)
    ensures SubMap(db'.sessions, db.sessions) ==> SessionsEvolve(db, db')
    ensures SubMap(db'.pats, db.pats) ==> PatsEvolve(db, db')
    ensures SubMap(db'.caps, db.caps) ==> CapsEvolve(db, db')
    ensures SubMap(db'.users, db.users) ==> UsersEvolve(db, db')
  {}

  lemma EvolvesTransitively(a: Db, b: Db, c: Db)
    requires Evolves(a, b) && Evolves(b, c)
    ensures Evolves(a, c)
  {
    assert SessionsEvolve(a, c) by { SessionsEvolveTransitively(a, b, c); }
    assert PatsEvolve(a, c);
    assert CapsEvolve(a, c);
  }

  lemma SessionsEvolveTransitively(a: Db, b: Db, c: Db)
    requires SessionsEvolve(a, b) && SessionsEvolve(b, c)
    requires a.clock <= b.clock <= c.clock && a.nextId <= b.nextId && a.used <= b.used <= c.used
    ensures SessionsEvolve(a, c)
  {}

  /** Both at once: what each small step is shown to do. */
  ghost predicate Keeps(db: Db, db': Db) {
    Sound(db') && Evolves(db, db')
  }

  lemma KeepsTransitively(a: Db, b: Db, c: Db)
    requires Keeps(a, b) && Keeps(b, c)
    ensures Keeps(a, c)
  {
    EvolvesTransitively(a, b, c);
  }

  lemma KeepsReflexively(db: Db)
    requires Sound(db)
    ensures Keeps(db, db)
  {}

  // ------------------------------------------------------------------- small steps

  predicate FreshRaws(db: Db, raws: Raws) {
    raws.a !in db.used && raws.b !in db.used && raws.a != raws.b && db.clock <= raws.at
  }

  lemma ArriveKeeps(db: Db, c: Context)
    requires Sound(db) && db.clock <= c.now
    ensures Keeps(db, Arrive(db, c))
  {
    hide UsersSound, SessionsSound, PatsSound, CapsSound, SasSound, HeldSound, SessionsEvolve, PatsEvolve,
         CapsEvolve, UsersEvolve;
    LosingRowsEvolves(db, Arrive(db, c));
    StillSound(db, db.nextId, db.used, c.now);
  }

  lemma TickKeeps(db: Db, raws: Raws)
    requires Sound(db) && db.clock <= raws.at
    ensures Keeps(db, Tick(db, raws))
  {
    hide UsersSound, SessionsSound, PatsSound, CapsSound, SasSound, HeldSound, SessionsEvolve, PatsEvolve,
         CapsEvolve, UsersEvolve;
    LosingRowsEvolves(db, Tick(db, raws));
    StillSound(db, db.nextId, db.used, raws.at);
  }

  lemma DrawKeeps(db: Db, raws: Raws)
    requires Sound(db) && db.clock <= raws.at
    ensures Keeps(db, Draw(db, raws))
  {
    hide UsersSound, SessionsSound, PatsSound, CapsSound, SasSound, HeldSound, SessionsEvolve, PatsEvolve,
         CapsEvolve, UsersEvolve;
    LosingRowsEvolves(db, Draw(db, raws));
    StillSound(db, db.nextId, db.used + {raws.a, raws.b}, raws.at);
  }

  lemma SkipIdKeeps(db: Db, n: nat)
    requires Sound(db)
    ensures Keeps(db, db.(nextId := db.nextId + n))
  {
    hide UsersSound, SessionsSound, PatsSound, CapsSound, SasSound, HeldSound, SessionsEvolve, PatsEvolve,
         CapsEvolve, UsersEvolve;
    LosingRowsEvolves(db, db.(nextId := db.nextId + n));
    StillSound(db, db.nextId + n, db.used, db.clock);
  }

  lemma TokenTail(prefix: string, raw: string)
    ensures prefix <= prefix + raw && (prefix + raw)[|prefix|..] == raw
  {}

  function AddSession(db: Db, userId: nat, raws: Raws): Db {
    InsertSession(Draw(db, raws), userId, raws)
  }

  /** A row whose hashes are nobody else's can be put under an id. */
  lemma SessionPutSound(rows: map<nat, Session>, users: set<nat>, next: nat, used: set<string>, clock: Time,
                        id: nat, s: Session)
    requires SessionsSound(rows, users, next, used, clock) && id < next && SessionSound(s, users, used, clock)
    requires forall k <- rows :: k != id ==>
               rows[k].tokenHash != s.tokenHash && (s.refreshHash != Blank ==> rows[k].refreshHash != s.refreshHash)
    ensures SessionsSound(rows[id := s], users, next, used, clock)
  {
    hide SessionSound;
  }

  lemma AddSessionKeeps(db: Db, userId: nat, raws: Raws)
    requires Sound(db) && userId in db.users && FreshRaws(db, raws)
    ensures Keeps(db, AddSession(db, userId, raws))
  {
    hide UsersSound, SessionsSound, PatsSound, CapsSound, SasSound, HeldSound, PatsEvolve, CapsEvolve, UsersEvolve;
    LosingRowsEvolves(db, AddSession(db, userId, raws));
    var db' := AddSession(db, userId, raws);
    TokenTail(SESSION_PREFIX, raws.a);
    TokenTail(REFRESH_PREFIX, raws.b);
    StillSound(db, db'.nextId, db'.used, db'.clock);
    NewSessionIsUnique(db, raws);
    SessionPutSound(db.sessions, db.users.Keys, db'.nextId, db'.used, db'.clock, db.nextId, db'.sessions[db.nextId]);
    assert SessionsEvolve(db, db');
  }

  /** No stored hash is of a token drawn now. */
  lemma NewSessionIsUnique(db: Db, raws: Raws)
    requires Sound(db) && FreshRaws(db, raws)
    ensures forall id <- db.sessions ::
              && db.sessions[id].tokenHash != Of(SESSION_PREFIX + raws.a)
              && db.sessions[id].refreshHash != Of(REFRESH_PREFIX + raws.b)
  {
    TokenTail(SESSION_PREFIX, raws.a);
    TokenTail(REFRESH_PREFIX, raws.b);
    forall id | id in db.sessions
      ensures db.sessions[id].tokenHash != Of(SESSION_PREFIX + raws.a) &&
              db.sessions[id].refreshHash != Of(REFRESH_PREFIX + raws.b)
    {
      assert SessionSound(db.sessions[id], db.users.Keys, db.used, db.clock);
    }
  }

  lemma DeleteSessionKeeps(db: Db, id: nat)
    requires Sound(db)
    ensures Keeps(db, DeleteSession(db, id))
  {
    hide UsersSound, PatsSound, CapsSound, SasSound, HeldSound, SessionsEvolve, PatsEvolve, CapsEvolve, UsersEvolve;
    LosingRowsEvolves(db, DeleteSession(db, id));
    var db' := DeleteSession(db, id);
    assert forall k <- db'.sessions :: k in db.sessions && db'.sessions[k] == db.sessions[k];
    assert SessionsSound(db'.sessions, db'.users.Keys, db'.nextId, db'.used, db'.clock);
  }

  lemma InvalidateSessionKeeps(db: Db, id: nat)
    requires Sound(db) && id in db.sessions
    ensures Keeps(db, InvalidateSession(db, id))
  {
    hide UsersSound, SessionsSound, PatsSound, CapsSound, SasSound, HeldSound, PatsEvolve, CapsEvolve, UsersEvolve;
    LosingRowsEvolves(db, InvalidateSession(db, id));
    var db' := InvalidateSession(db, id);
    SessionHashesDiffer(db, id);
    SessionPutSound(db.sessions, db.users.Keys, db.nextId, db.used, db.clock, id, db'.sessions[id]);
    assert SessionsEvolve(db, db');
  }

  lemma SessionHashesDiffer(db: Db, id: nat)
    requires Sound(db) && id in db.sessions
    ensures id < db.nextId && SessionSound(db.sessions[id], db.users.Keys, db.used, db.clock)
    ensures forall k <- db.sessions :: k != id ==> db.sessions[k].tokenHash != db.sessions[id].tokenHash
  {}

  function AddPat(db: Db, userId: nat, expiry: Option<Time>, raws: Raws): Db {
    var db1 := Draw(db, raws);
    db1.(pats := db1.pats[db1.nextId := Pat(userId, HashToken(PAT_PREFIX + raws.a), expiry)], nextId := db1.nextId + 1)
  }

  lemma AddPatKeeps(db: Db, userId: nat, expiry: Option<Time>, raws: Raws)
    requires Sound(db) && userId in db.users && FreshRaws(db, raws)
    ensures Keeps(db, AddPat(db, userId, expiry, raws))
  {
    hide UsersSound, SessionsSound, CapsSound, SasSound, HeldSound, SessionsEvolve, CapsEvolve, UsersEvolve;
    LosingRowsEvolves(db, AddPat(db, userId, expiry, raws));
    var db' := AddPat(db, userId, expiry, raws);
    TokenTail(PAT_PREFIX, raws.a);
    StillSound(db, db'.nextId, db'.used, db'.clock);
    assert PatsSound(db'.pats, db'.users.Keys, db'.nextId, db'.used);
  }

  lemma DropPatKeeps(db: Db, id: nat)
    requires Sound(db)
    ensures Keeps(db, db.(pats := db.pats - {id}))
  {
    hide UsersSound, SessionsSound, CapsSound, SasSound, HeldSound, SessionsEvolve, PatsEvolve, CapsEvolve, UsersEvolve;
    LosingRowsEvolves(db, db.(pats := db.pats - {id}));
    assert PatsSound(db.pats - {id}, db.users.Keys, db.nextId, db.used);
  }

  function AddCapability(db: Db, issuedBy: Option<nat>, expires: Option<Time>, entries: seq<Entry>, raws: Raws): Db {
    InsertCapability(Draw(db, raws), Capability(issuedBy, HashToken(CAPABILITY_PREFIX + raws.a), expires), entries)
  }

  lemma RowsOfSound(entries: seq<Entry>, firstId: nat)
    ensures RowsSound(RowsOf(entries, firstId), firstId + |entries|)
  {}

  lemma RowsSoundStays(rows: seq<Permission>, next: nat, next': nat)
    requires RowsSound(rows, next) && next <= next'
    ensures RowsSound(rows, next')
  {}

  lemma HeldSoundStays(held: map<Owner, seq<Permission>>, next: nat, next': nat)
    requires HeldSound(held, next) && next <= next'
    ensures HeldSound(held, next')
  {
    hide RowsSound;
    forall o | o in held ensures o.id < next' && RowsSound(held[o], next') { RowsSoundStays(held[o], next, next'); }
  }

  lemma HeldPutSound(held: map<Owner, seq<Permission>>, next: nat, owner: Owner, rows: seq<Permission>)
    requires HeldSound(held, next) && owner.id < next && RowsSound(rows, next)
    ensures HeldSound(held[owner := rows], next)
  {
    hide RowsSound;
  }

  lemma TokenRowsSound(held: map<Owner, seq<Permission>>, id: nat, entries: seq<Entry>)
    requires HeldSound(held, id)
    ensures HeldSound(held[OfToken(id) := RowsOf(entries, id + 1)], id + 1 + |entries|)
  {
    hide HeldSound, RowsSound, RowsOf;
    RowsOfSound(entries, id + 1);
    HeldSoundStays(held, id, id + 1 + |entries|);
    HeldPutSound(held, id + 1 + |entries|, OfToken(id), RowsOf(entries, id + 1));
  }

  lemma AddCapabilityKeeps(db: Db, issuedBy: Option<nat>, expires: Option<Time>, entries: seq<Entry>, raws: Raws)
    requires Sound(db) && (issuedBy.Some? ==> issuedBy.value in db.users) && FreshRaws(db, raws)
    ensures Keeps(db, AddCapability(db, issuedBy, expires, entries, raws))
  {
    hide UsersSound, SessionsSound, PatsSound, SasSound, HeldSound, SessionsEvolve, PatsEvolve, UsersEvolve, RowsOf;
    var db' := AddCapability(db, issuedBy, expires, entries, raws);
    LosingRowsEvolves(db, db');
    TokenTail(CAPABILITY_PREFIX, raws.a);
    StillSound(db, db'.nextId, db'.used, db'.clock);
    TokenRowsSound(db.held, db.nextId, entries);
    assert CapsSound(db'.caps, db'.users.Keys, db'.nextId, db'.used);
  }

  lemma DropCapabilitiesKeeps(db: Db, gone: set<nat>)
    requires Sound(db)
    ensures Keeps(db, DropCapabilities(db, gone))
  {
    hide UsersSound, SessionsSound, PatsSound, SasSound, SessionsEvolve, PatsEvolve, CapsEvolve, UsersEvolve;
    LosingRowsEvolves(db, DropCapabilities(db, gone));
    var db' := DropCapabilities(db, gone);
    assert CapsSound(db'.caps, db'.users.Keys, db'.nextId, db'.used);
    assert HeldSound(db'.held, db'.nextId);
  }

  lemma InsertUserKeeps(db: Db, name: string, pass: string)
    requires Sound(db)
    ensures Keeps(db, InsertUser(db, name, pass))
  {
    var db' := InsertUser(db, name, pass);
    StillSound(db, db'.nextId, db.used, db.clock);
    SessionsGrow(db.sessions, db.users.Keys, db.nextId, db.used, db.clock, db'.users.Keys, db'.nextId, db'.used,
                 db'.clock);
    assert PatsSound(db'.pats, db'.users.Keys, db'.nextId, db'.used);
    assert CapsSound(db'.caps, db'.users.Keys, db'.nextId, db'.used);
  }

  lemma DropUserRowsSound(db: Db, id: nat)
    requires Sound(db)
    ensures var db' := DropUser(db, id);
            && UsersSound(db'.users, db'.nextId)
            && SessionsSound(db'.sessions, db'.users.Keys, db'.nextId, db'.used, db'.clock)
            && PatsSound(db'.pats, db'.users.Keys, db'.nextId, db'.used)
  {
    hide CapsSound, HeldSound, SasSound;
    var db' := DropUser(db, id);
    forall k | k in db'.sessions ensures SessionSound(db'.sessions[k], db'.users.Keys, db'.used, db'.clock) {
      assert SessionSound(db.sessions[k], db.users.Keys, db.used, db.clock);
    }
  }

  lemma DropUserTokensSound(db: Db, id: nat)
    requires Sound(db)
    ensures var db' := DropUser(db, id);
            CapsSound(db'.caps, db'.users.Keys, db'.nextId, db'.used) && HeldSound(db'.held, db'.nextId)
  {
    hide UsersSound, SessionsSound, PatsSound, SasSound;
  }

  lemma DropUserKeeps(db: Db, id: nat)
    requires Sound(db)
    ensures Keeps(db, DropUser(db, id))
  {
    hide UsersSound, SessionsSound, PatsSound, CapsSound, SasSound, HeldSound, SessionsEvolve, PatsEvolve,
         CapsEvolve, UsersEvolve;
    DropUserRowsSound(db, id);
    DropUserTokensSound(db, id);
    LosingRowsEvolves(db, DropUser(db, id));
  }

  lemma SetHeldKeeps(db: Db, owner: Owner, rows: seq<Permission>)
    requires Sound(db) && owner.id < db.nextId && RowsSound(rows, db.nextId)
    ensures Keeps(db, SetHeld(db, owner, rows))
  {
    hide UsersSound, SessionsSound, PatsSound, CapsSound, SasSound, SessionsEvolve, PatsEvolve, CapsEvolve, UsersEvolve;
    LosingRowsEvolves(db, SetHeld(db, owner, rows));
    assert HeldSound(SetHeld(db, owner, rows).held, db.nextId);
  }

  lemma InsertSaKeeps(db: Db, namespace: string, name: string)
    requires Sound(db) && FindSa(db, namespace, name).None?
    ensures Keeps(db, InsertSa(db, namespace, name))
  {
    hide UsersSound, SessionsSound, PatsSound, CapsSound, HeldSound, SessionsEvolve, PatsEvolve, CapsEvolve,
         UsersEvolve;
    LosingRowsEvolves(db, InsertSa(db, namespace, name));
    var db' := InsertSa(db, namespace, name);
    StillSound(db, db'.nextId, db.used, db.clock);
    assert SasSound(db'.sas, db'.nextId);
  }

  lemma HeldRowsSound(db: Db, owner: Owner)
    requires Sound(db)
    ensures RowsSound(HeldBy(db, owner), db.nextId)
  {}

  // ------------------------------------------------------------------ whole requests

  lemma {:induction false} GrantAllKeeps(db: Db, owner: Owner, entries: seq<Entry>, writes: nat)
    requires Sound(db) && owner.id < db.nextId
    ensures Keeps(db, GrantAll(db, owner, entries, writes).0)
    decreases |entries|
  {
    hide Sound, Evolves, Keeps, HeldBy;
    KeepsReflexively(db);
    if entries != [] && writes > 0 {
      SkipIdKeeps(db, 1);
      if writes > 1 {
        var p := NewPermission(db.nextId, entries[0].pattern, entries[0].verb, entries[0].expires);
        var db1 := db.(nextId := db.nextId + 1);
        var db2 := SetHeld(db1, owner, HeldBy(db1, owner) + [p]);
        AppendRowKeeps(db, owner, p);
        KeptIsSound(db, db2);
        GrantAllKeeps(db2, owner, entries[1..], writes - 2);
        KeepsTransitively(db, db2, GrantAll(db2, owner, entries[1..], writes - 2).0);
      }
    }
  }

  lemma AppendRowKeeps(db: Db, owner: Owner, p: Permission)
    requires Sound(db) && owner.id < db.nextId && p.id == db.nextId
    ensures var db1 := db.(nextId := db.nextId + 1);
            Keeps(db, SetHeld(db1, owner, HeldBy(db1, owner) + [p]))
  {
    hide Sound, Evolves, Keeps;
    var db1 := db.(nextId := db.nextId + 1);
    var rows := HeldBy(db1, owner) + [p];
    SkipIdKeeps(db, 1);
    KeptIsSound(db, db1);
    HeldRowsSound(db, owner);
    SetHeldKeeps(db1, owner, rows);
    KeepsTransitively(db, db1, SetHeld(db1, owner, rows));
  }

  lemma KeptIsSound(db: Db, db': Db)
    requires Keeps(db, db')
    ensures Sound(db') && db.nextId <= db'.nextId && db.used <= db'.used && db.clock <= db'.clock
  {}

  lemma {:induction false} RevokeOneRows(rows: seq<Permission>, e: Entry, writes: nat, next: nat)
    requires RowsSound(rows, next)
    ensures var rows' := RevokeOne(rows, e, writes).0;
            RowsSound(rows', next) && forall i :: 0 <= i < |rows'| ==> rows'[i] in rows
  {
    if rows != [] {
      var w := if RevokedBy(rows[0], e) && writes > 0 then writes - 1 else writes;
      RevokeOneRows(rows[1..], e, w, next);
    }
  }

  lemma {:induction false} RevokeAllRows(rows: seq<Permission>, entries: seq<Entry>, writes: nat, next: nat)
    requires RowsSound(rows, next)
    ensures RowsSound(RevokeAll(rows, entries, writes).0, next)
    decreases |entries|
  {
    if entries != [] {
      RevokeOneRows(rows, entries[0], writes, next);
      var (rest, left, ok) := RevokeOne(rows, entries[0], writes);
      if ok { RevokeAllRows(rest, entries[1..], left, next); }
    }
  }

  lemma TargetExists(db: Db, principal: string)
    requires Sound(db) && TargetOf(db, principal).0.Some?
    ensures TargetOf(db, principal).0.value.id < db.nextId
  {}

  lemma HandleAdminKeeps(db: Db, r: Request, bootstrap: bool, writes: nat)
    requires Sound(db) && AdminVerb(r).Some?
    ensures Keeps(db, HandleAdmin(db, r, bootstrap, writes).0)
  {
    hide Sound, Evolves, Keeps, CreateUser, DeleteUser, Grant, Revoke, AddAnon, DeleteAnon;
    match r
    case CreateUserRequest(name, pass) => CreateUserKeeps(db, name, pass, bootstrap, writes);
    case DeleteUserRequest(name) => DeleteUserKeeps(db, name, writes);
    case GrantRequest(principal, entries) => GrantKeeps(db, principal, entries, writes);
    case RevokeRequest(principal, entries) => RevokeKeeps(db, principal, entries, writes);
    case AddAnonRequest(entries) => AnonRequestsKeep(db, entries, 0, writes);
    case DeleteAnonRequest(id) => AnonRequestsKeep(db, [], id, writes);
  }

  lemma CreateUserKeeps(db: Db, name: string, pass: string, bootstrap: bool, writes: nat)
    requires Sound(db)
    ensures Keeps(db, CreateUser(db, name, pass, bootstrap, writes).0)
  {
    hide Sound, Evolves, Keeps, GrantAll, BOOTSTRAP_GRANTS;
    KeepsReflexively(db);
    var db1 := InsertUser(db, name, pass);
    InsertUserKeeps(db, name, pass);
    KeptIsSound(db, db1);
    if writes > 0 {
      GrantAllKeeps(db1, OfUser(db.nextId), BOOTSTRAP_GRANTS, writes - 1);
      KeepsTransitively(db, db1, GrantAll(db1, OfUser(db.nextId), BOOTSTRAP_GRANTS, writes - 1).0);
    }
  }

  lemma DeleteUserKeeps(db: Db, name: string, writes: nat)
    requires Sound(db)
    ensures Keeps(db, DeleteUser(db, name, writes).0)
  {
    hide Sound, Evolves, Keeps, DropUser;
    KeepsReflexively(db);
    if FindUser(db, name).Some? { DropUserKeeps(db, FindUser(db, name).value); }
  }

  lemma GrantKeeps(db: Db, principal: string, entries: seq<Entry>, writes: nat)
    requires Sound(db)
    ensures Keeps(db, Grant(db, principal, entries, writes).0)
  {
    hide Sound, Evolves, Keeps, GrantAll, TargetOf;
    KeepsReflexively(db);
    var owner := TargetOf(db, principal).0;
    if owner.Some? {
      TargetExists(db, principal);
      GrantAllKeeps(db, owner.value, entries, writes);
    }
  }

  lemma RevokeKeeps(db: Db, principal: string, entries: seq<Entry>, writes: nat)
    requires Sound(db)
    ensures Keeps(db, Revoke(db, principal, entries, writes).0)
  {
    hide Sound, Evolves, Keeps, RevokeAll, TargetOf;
    KeepsReflexively(db);
    var owner := TargetOf(db, principal).0;
    if owner.Some? {
      TargetExists(db, principal);
      HeldRowsSound(db, owner.value);
      RevokeAllRows(HeldBy(db, owner.value), entries, writes, db.nextId);
      SetHeldKeeps(db, owner.value, RevokeAll(HeldBy(db, owner.value), entries, writes).0);
    }
  }

  lemma AnonRequestsKeep(db: Db, entries: seq<Entry>, id: nat, writes: nat)
    requires Sound(db)
    ensures Keeps(db, AddAnon(db, entries, writes).0) && Keeps(db, DeleteAnon(db, id, writes).0)
  {
    hide Sound, Evolves, Keeps, AnonRows, WithoutAnon;
    KeepsReflexively(db);
    AnonKeeps(db, AddAnon(db, entries, writes).0.anon, if writes < |entries| then writes else |entries|);
    AnonKeeps(db, WithoutAnon(db.anon, id), 0);
  }

  lemma AnonKeeps(db: Db, anon: seq<AnonPermission>, n: nat)
    requires Sound(db)
    ensures Keeps(db, db.(anon := anon, nextId := db.nextId + n))
  {
    hide UsersSound, SessionsSound, PatsSound, CapsSound, SasSound, HeldSound, SessionsEvolve, PatsEvolve,
         CapsEvolve, UsersEvolve;
    LosingRowsEvolves(db, db.(anon := anon, nextId := db.nextId + n));
    StillSound(db, db.nextId + n, db.used, db.clock);
  }

  lemma HandleOwnKeeps(db: Db, userId: nat, r: Request, raws: Raws, writes: nat)
    requires Sound(db) && userId in db.users && FreshRaws(db, raws)
    ensures Keeps(db, HandleOwn(db, userId, r, raws, writes).0)
  {
    hide Sound, Evolves, Keeps, DelegationRefusal, InsertCapability, DropCapabilities;
    KeepsReflexively(db);
    DrawKeeps(db, raws);
    match r
    case IssuePatRequest(expiry) => AddPatKeeps(db, userId, expiry, raws);
    case RevokePatRequest(id) => DropPatKeeps(db, id);
    case IssueCapabilityRequest(entries) => AddCapabilityKeeps(db, Some(userId), None, entries, raws);
    case RevokeCapabilityRequest(id) => DropCapabilitiesKeeps(db, {id});
    case _ =>
  }

  lemma RefreshKeeps(db: Db, token: string, raws: Raws, writes: nat)
    requires Sound(db) && FreshRaws(db, raws)
    ensures Keeps(db, Refresh(db, token, raws, writes).0)
  {
    hide Sound, Evolves, Keeps;
    KeepsReflexively(db);
    DrawKeeps(db, raws);
    var id := Refreshable(db, token);
    if id.Some? {
      var db1 := AddSession(db, db.sessions[id.value].userId, raws);
      AddSessionKeeps(db, db.sessions[id.value].userId, raws);
      KeptIsSound(db, db1);
      DeleteSessionKeeps(db1, id.value);
      KeepsTransitively(db, db1, DeleteSession(db1, id.value));
    }
  }

  lemma LoginKeeps(db: Db, name: string, pass: string, raws: Raws, writes: nat)
    requires Sound(db) && FreshRaws(db, raws)
    ensures Keeps(db, Login(db, name, pass, raws, writes).0)
  {
    hide Sound, Evolves, Keeps;
    KeepsReflexively(db);
    DrawKeeps(db, raws);
    var u := FindUser(db, name);
    if u.Some? { AddSessionKeeps(db, u.value, raws); }
  }

  lemma LogoutKeeps(db: Db, token: string, writes: nat)
    requires Sound(db)
    ensures Keeps(db, Logout(db, token, writes).0)
  {
    hide Sound, Evolves, Keeps;
    KeepsReflexively(db);
    var id := FindSession(db, HashToken(token));
    if id.Some? { InvalidateSessionKeeps(db, id.value); }
  }

  lemma AnonTokenKeeps(db: Db, ttl: Time, raws: Raws, writes: nat)
    requires Sound(db) && FreshRaws(db, raws)
    ensures Keeps(db, AnonToken(db, ttl, raws, writes).0)
  {
    hide Sound, Evolves, Keeps, InsertCapability;
    KeepsReflexively(db);
    DrawKeeps(db, raws);
    AddCapabilityKeeps(db, None, Some(raws.at + ttl), AnonEntries(LiveAnon(db.anon, db.clock)), raws);
  }

  lemma AuthenticateKeeps(db: Db, bearer: string, review: Option<(string, string)>, writes: nat)
    requires Sound(db)
    ensures Keeps(db, Authenticate(db, bearer, review, writes).0)
    ensures var db' := Authenticate(db, bearer, review, writes).0; db'.used == db.used && db'.clock == db.clock
  {
    hide Sound, Evolves, Keeps;
    KeepsReflexively(db);
    if review.Some? && FindSa(db, review.value.0, review.value.1).None? {
      InsertSaKeeps(db, review.value.0, review.value.1);
    }
  }

  lemma HandleKeeps(db: Db, who: Identity, bearer: string, r: Request, raws: Raws, writes: nat)
    requires Sound(db) && FreshRaws(db, raws)
    ensures Keeps(db, Handle(db, who, bearer, r, raws, writes).0)
  {
    hide Sound, Evolves, Keeps, HandleAdmin, HandleOwn, Refresh, Logout, RequireMeta;
    KeepsReflexively(db);
    if AdminVerb(r).Some? { HandleAdminKeeps(db, r, false, writes); }
    if r.RefreshRequest? { RefreshKeeps(db, r.token, raws, writes); }
    if r.LogoutRequest? {
      TickKeeps(db, raws);
      KeptIsSound(db, Tick(db, raws));
      LogoutKeeps(Tick(db, raws), bearer, writes);
      KeepsTransitively(db, Tick(db, raws), Logout(Tick(db, raws), bearer, writes).0);
    }
    if UserOf(who).Some? && UserOf(who).value in db.users { HandleOwnKeeps(db, UserOf(who).value, r, raws, writes); }
  }

  /** Time does not go back and random strings are new. */
  ghost predicate Feasible(db: Db, c: Context) {
    db.clock <= c.now <= c.raws.at && FreshRaws(db, c.raws)
  }

  /** Every request keeps the invariant and only evolves the tables as described. */
  lemma ServeKeeps(db: Db, c: Context, bearer: string, r: Request)
    requires Sound(db) && Feasible(db, c)
    ensures Keeps(db, Serve(db, c, bearer, r).0)
  {
    hide Sound, Evolves, Keeps, Login, AnonToken, HandleAdmin, Handle, Authenticate;
    var db0 := Arrive(db, c);
    ArriveKeeps(db, c);
    KeptIsSound(db, db0);
    KeepsReflexively(db0);
    var db' := Serve(db, c, bearer, r).0;
    if r.LoginRequest? {
      LoginKeeps(db0, r.name, r.pass, c.raws, c.writes);
    } else if r.AnonTokenRequest? {
      AnonTokenKeeps(db0, r.ttl, c.raws, c.writes);
    } else if IsBootstrap(c, bearer, r) {
      HandleAdminKeeps(db0, r, true, c.writes);
    } else if bearer != "" {
      var (db1, who, left) := Authenticate(db0, bearer, c.review, c.writes);
      AuthenticateKeeps(db0, bearer, c.review, c.writes);
      KeptIsSound(db0, db1);
      if who.Some? {
        HandleKeeps(db1, who.value, bearer, r, c.raws, left);
        KeepsTransitively(db0, db1, Handle(db1, who.value, bearer, r, c.raws, left).0);
      }
    }
    KeepsTransitively(db, db0, db');
  }
}
