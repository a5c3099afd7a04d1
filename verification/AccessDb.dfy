/** The account, token and permission handlers as they run, statement by statement, on the
    database rows; `writes` counts down to the write that fails. */
module AccessDb {
  import opened Strings
  import opened Authz
  import opened Principals
  import opened Access
  import opened AccessInvariants
  import opened Sync

  class Database {
    var clock: Time
    var nextId: nat
    var used: set<string>
    var users: map<nat, UserRow>
    var sessions: map<nat, Session>
    var pats: map<nat, Pat>
    var caps: map<nat, Capability>
    var sas: map<nat, SaRow>
    var held: map<Owner, seq<Permission>>
    var anon: seq<AnonPermission>

    function State(): Db
      reads this
    {
      Db(clock, nextId, used, users, sessions, pats, caps, sas, held, anon)
    }

    constructor (now: Time)
      ensures State() == Db(now, 0, {}, map[], map[], map[], map[], map[], map[], [])
    {
      clock, nextId, used := now, 0, {};
      users, sessions, pats, caps, sas := map[], map[], map[], map[], map[];
      held, anon := map[], [];
    }

    method FreshId() returns (id: nat)
      modifies this`nextId
      ensures id == old(nextId) && nextId == id + 1
    {
      id := nextId;
      nextId := nextId + 1;
    }

    /** `GenerateToken`, twice, and a reading of the clock. */
    method DrawRaws(raws: Raws)
      modifies this`used, this`clock
      ensures State() == Draw(old(State()), raws)
    {
      used := used + {raws.a};
      used := used + {raws.b};
      assert used == old(used) + {raws.a, raws.b};
      clock := raws.at;
    }

    // -------------------------------------------------------------------- sessions

    /** `NewSession`. */
    method NewSession(userId: nat, raws: Raws, fails: bool) returns (answer: Option<Answer>)
      modifies this`used, this`clock, this`sessions, this`nextId
      ensures fails ==> answer.None? && State() == Draw(old(State()), raws)
      ensures !fails ==>
              answer == Some(SessionTokens(raws)) && State() == InsertSession(Draw(old(State()), raws), userId, raws)
    {
      DrawRaws(raws);
      var session := SESSION_PREFIX + raws.a;
      var refresh := REFRESH_PREFIX + raws.b;
      if fails {
        return None;
      }
      var id := FreshId();
      sessions := sessions[id := Session(userId, HashToken(session), HashToken(refresh), clock + SESSION_LIFETIME)];
      return Some(Tokens(session, refresh));
    }

    method LoginUser(name: string, pass: string, raws: Raws, writes: nat) returns (answer: Answer)
      modifies this`used, this`clock, this`sessions, this`nextId
      ensures (State(), answer) == Login(old(State()), name, pass, raws, writes)
    {
      if name == "" || pass == "" {
        return Rejected(BadRequest);
      }
      var u := FindUser(State(), name);
      if u.None? || users[u.value].pass != pass {
        return Rejected(Unauthorized);
      }
      var tokens := NewSession(u.value, raws, writes == 0);
      return if tokens.None? then Rejected(Unauthorized) else tokens.value;
    }

    method RefreshSession(token: string, raws: Raws, writes: nat) returns (answer: Answer)
      modifies this`used, this`clock, this`sessions, this`nextId
      ensures (State(), answer) == Refresh(old(State()), token, raws, writes)
    {
      if token == "" {
        return Rejected(BadRequest);
      }
      if !(REFRESH_PREFIX <= token) {
        return Rejected(Unauthorized);
      }
      var id := FindRefresh(State(), HashToken(token));
      if id.None? {
        return Rejected(Unauthorized);
      }
      var session := sessions[id.value];
      if clock > session.expiresAt || session.userId !in users {
        return Rejected(Unauthorized);
      }
      var tokens := NewSession(session.userId, raws, writes == 0);
      if tokens.None? {
        return Rejected(Unauthorized);
      }
      if writes == 1 {
        return Rejected(Unauthorized);
      }
      sessions := sessions - {id.value};
      return tokens.value;
    }

    method LogoutSession(token: string, writes: nat) returns (answer: Answer)
      modifies this`sessions
      ensures (State(), answer) == Logout(old(State()), token, writes)
    {
      if !(SESSION_PREFIX <= token) {
        return Rejected(Unauthorized);
      }
      var id := FindSession(State(), HashToken(token));
      if id.None? {
        return Rejected(Unauthorized);
      }
      if writes == 0 {
        return Rejected(Unauthorized);
      }
      var session := sessions[id.value];
      sessions := sessions[id.value := session.(expiresAt := clock - SECOND, refreshHash := Blank)];
      return Done;
    }

    // ---------------------------------------------------------------- capability tokens

    /** A permission row per entry. */
    method CreateRows(entries: seq<Entry>) returns (rows: seq<Permission>)
      modifies this`nextId
      ensures rows == RowsOf(entries, old(nextId)) && nextId == old(nextId) + |entries|
    {
      rows := [];
      for i := 0 to |entries|
        invariant nextId == old(nextId) + i && |rows| == i
        invariant forall k :: 0 <= k < i ==>
                    rows[k] == NewPermission(old(nextId) + k, entries[k].pattern, entries[k].verb, entries[k].expires)
      {
        var id := FreshId();
        rows := rows + [NewPermission(id, entries[i].pattern, entries[i].verb, entries[i].expires)];
      }
    }

    /** The transaction shared by delegated and anonymous tokens: the token row, then the
        permission rows and their links. */
    method StoreCapability(c: Capability, entries: seq<Entry>)
      modifies this`caps, this`held, this`nextId
      ensures State() == InsertCapability(old(State()), c, entries)
    {
      hide RowsOf;
      var id := FreshId();
      caps := caps[id := c];
      var rows := CreateRows(entries);
      held := held[OfToken(id) := rows];
    }

    /** `IssueCapabilityToken`: validate every entry by checking its pattern's text, then store. */
    method IssueCapabilityToken(userId: nat, entries: seq<Entry>, raws: Raws, writes: nat) returns (answer: Answer)
      requires userId in users
      modifies this`used, this`clock, this`caps, this`held, this`nextId
      ensures (State(), answer) == IssueCapability(old(State()), userId, entries, raws, writes)
    {
      hide InsertCapability, MayDelegate, WellFormedPattern;
      if entries == [] {
        return Rejected(BadRequest);
      }
      var issuer := User(users[userId].name);
      ghost var refusal := DelegationRefusal(State(), issuer, entries);
      for i := 0 to |entries|
        invariant State() == old(State()) && refusal == DelegationRefusal(State(), issuer, entries[i..])
      {
        assert entries[i..][0] == entries[i] && entries[i..][1..] == entries[i + 1..];
        if !WellFormedPattern(entries[i].pattern) {
          return Rejected(BadRequest);
        }
        if !MayDelegate(State(), issuer, entries[i]) {
          return Rejected(Unauthorized);
        }
      }
      DrawRaws(raws);
      if writes < 1 + 2 * |entries| {
        return Rejected(Failed);
      }
      var token := CAPABILITY_PREFIX + raws.a;
      StoreCapability(Capability(Some(userId), HashToken(token), None), entries);
      return Issued(token);
    }

    /** `AnonToken`. */
    method IssueAnonToken(ttl: Time, raws: Raws, writes: nat) returns (answer: Answer)
      modifies this`used, this`clock, this`caps, this`held, this`nextId
      ensures (State(), answer) == AnonToken(old(State()), ttl, raws, writes)
    {
      hide InsertCapability;
      var rows := LiveAnon(anon, clock);
      if |rows| == 0 {
        return Rejected(Unavailable);
      }
      DrawRaws(raws);
      var token := CAPABILITY_PREFIX + raws.a;
      var expires := clock + ttl;
      if writes < 1 + 2 * |rows| {
        return Rejected(Failed);
      }
      StoreCapability(Capability(None, HashToken(token), Some(expires)), AnonEntries(rows));
      return Issued(token);
    }

    /** `RevokeCapabilityToken`: by its issuer only. */
    method RevokeCapabilityToken(userId: nat, id: nat, writes: nat) returns (answer: Answer)
      modifies this`caps, this`held
      ensures (State(), answer) == RevokeCapability(old(State()), userId, id, writes)
    {
      hide DropCapabilities;
      if id !in caps {
        return Rejected(NotFound);
      }
      if caps[id].issuedBy != Some(userId) {
        return Rejected(Unauthorized);
      }
      if writes == 0 {
        return Rejected(Failed);
      }
      RemoveTokens({id});
      return Done;
    }

    /** `IssuePAT`. */
    method IssuePersonalToken(userId: nat, expiry: Option<Time>, raws: Raws, writes: nat) returns (answer: Answer)
      modifies this`used, this`clock, this`pats, this`nextId
      ensures (State(), answer) == IssuePat(old(State()), userId, expiry, raws, writes)
    {
      DrawRaws(raws);
      var token := PAT_PREFIX + raws.a;
      if writes == 0 {
        return Rejected(Failed);
      }
      var id := FreshId();
      pats := pats[id := Pat(userId, HashToken(token), expiry)];
      return Issued(token);
    }

    /** `RevokePAT`: by its owner only. */
    method RevokePersonalToken(userId: nat, id: nat, writes: nat) returns (answer: Answer)
      modifies this`pats
      ensures (State(), answer) == RevokePat(old(State()), userId, id, writes)
    {
      if id !in pats {
        return Rejected(NotFound);
      }
      if pats[id].userId != userId {
        return Rejected(Unauthorized);
      }
      if writes == 0 {
        return Rejected(Failed);
      }
      pats := pats - {id};
      return Done;
    }

    // ------------------------------------------------------------------ grants and revokes

    /** `CreatePermission` and the link, per entry, until a write fails. */
    method GrantEntries(owner: Owner, entries: seq<Entry>, writes: nat) returns (ok: bool)
      modifies this`held, this`nextId
      ensures (State(), ok) == GrantAll(old(State()), owner, entries, writes)
    {
      hide GrantAll;
      var left := writes;
      assert entries[0..] == entries;
      for i := 0 to |entries|
        invariant GrantAll(old(State()), owner, entries, writes) == GrantAll(State(), owner, entries[i..], left)
        invariant State() == old(State()).(held := held, nextId := nextId)
      {
        GrantOneMore(State(), owner, entries, i, left);
        if left == 0 {
          return false;
        }
        var pid := FreshId();
        if left == 1 {
          return false;
        }
        var row := NewPermission(pid, entries[i].pattern, entries[i].verb, entries[i].expires);
        held := held[owner := RowsIn(held, owner) + [row]];
        left := left - 2;
      }
      GrantNoMore(State(), owner, entries, left);
      return true;
    }

    /** The association delete of one permission id. */
    method Unlink(owner: Owner, id: nat)
      modifies this`held
      ensures held == old(held)[owner := WithoutId(RowsIn(old(held), owner), id)]
    {
      held := held[owner := WithoutId(RowsIn(held, owner), id)];
    }

    /** `RevokeMatchingPermissionsFromUser` and its service-account twin: walk the rows read at
        the start and unlink each match by id. */
    method RevokeMatching(owner: Owner, e: Entry, writes: nat) returns (left: nat, ok: bool)
      requires DistinctIds(RowsIn(held, owner))
      modifies this`held
      ensures (RowsIn(held, owner), left, ok) == RevokeOne(RowsIn(old(held), owner), e, writes)
      ensures forall o: Owner :: o != owner ==> RowsIn(held, o) == RowsIn(old(held), o)
    {
      hide RevokedBy, WithoutId, RevokeOne, RevokeFrom, KeptFrom, DistinctIds;
      var rows := RowsIn(held, owner);
      ghost var kept: seq<Permission> := [];
      left := writes;
      RevokeFromStart(rows, e, writes);
      for i := 0 to |rows|
        invariant forall o: Owner :: o != owner ==> RowsIn(held, o) == RowsIn(old(held), o)
        invariant RowsIn(held, owner) == kept + rows[i..] && KeptFrom(kept, rows, i)
        invariant RevokeOne(rows, e, writes) == RevokeFrom(kept, rows[i..], e, left)
      {
        NextRow(kept, rows, i, e, left);
        if RevokedBy(rows[i], e) {
          if left == 0 {
            return 0, false;
          }
          UnlinkedRows(rows, kept, i);
          Unlink(owner, rows[i].id);
          left := left - 1;
        } else {
          kept := kept + [rows[i]];
        }
      }
      RevokeFromEnd(kept, rows, e, left);
      return left, true;
    }

    /** The entry loop of `RevokePermissions`. */
    method RevokeEntries(owner: Owner, entries: seq<Entry>, writes: nat) returns (ok: bool)
      requires RowsSound(RowsIn(held, owner), nextId)
      modifies this`held
      ensures (RowsIn(held, owner), ok) == RevokeAll(RowsIn(old(held), owner), entries, writes)
      ensures forall o: Owner :: o != owner ==> RowsIn(held, o) == RowsIn(old(held), o)
    {
      hide RevokeOne;
      var left := writes;
      for i := 0 to |entries|
        invariant RowsSound(RowsIn(held, owner), nextId)
        invariant forall o: Owner :: o != owner ==> RowsIn(held, o) == RowsIn(old(held), o)
        invariant RevokeAll(RowsIn(old(held), owner), entries, writes) ==
                  RevokeAll(RowsIn(held, owner), entries[i..], left)
      {
        assert entries[i..][0] == entries[i] && entries[i..][1..] == entries[i + 1..];
        RevokeOneRows(RowsIn(held, owner), entries[i], left, nextId);
        var done: bool;
        left, done := RevokeMatching(owner, entries[i], left);
        if !done {
          return false;
        }
      }
      return true;
    }

    /** `GrantPermissions`, behind its gate. */
    method GrantPermissions(principal: string, entries: seq<Entry>, writes: nat) returns (answer: Answer)
      modifies this`held, this`nextId
      ensures (State(), answer) == Grant(old(State()), principal, entries, writes)
    {
      hide ValidateAddPattern, GrantAll, ParsePrincipal, FindUser, FindSa;
      if principal == "" || |entries| == 0 || ParsePrincipal(principal).Err? {
        return Rejected(BadRequest);
      }
      for i := 0 to |entries|
        invariant State() == old(State())
        invariant forall k :: 0 <= k < i ==> ValidateAddPattern(entries[k].pattern)
      {
        if !ValidateAddPattern(entries[i].pattern) {
          assert entries[i] in entries;
          return Rejected(BadRequest);
        }
      }
      var (owner, status) := TargetOf(State(), principal);
      if owner.None? {
        return Rejected(status);
      }
      var ok := GrantEntries(owner.value, entries, writes);
      return if ok then Done else Rejected(Failed);
    }

    /** `RevokePermissions`, behind its gate. */
    method RevokePermissions(principal: string, entries: seq<Entry>, writes: nat) returns (answer: Answer)
      requires Sound(State())
      modifies this`held
      ensures answer == Revoke(old(State()), principal, entries, writes).1
      ensures forall o: Owner :: RowsIn(held, o) == HeldBy(Revoke(old(State()), principal, entries, writes).0, o)
    {
      hide Sound, ValidateDeletePattern, RevokeAll, ParsePrincipal, TargetOf;
      if principal == "" || |entries| == 0 || ParsePrincipal(principal).Err? {
        return Rejected(BadRequest);
      }
      for i := 0 to |entries|
        invariant held == old(held)
        invariant forall k :: 0 <= k < i ==> ValidateDeletePattern(entries[k].pattern)
      {
        if !ValidateDeletePattern(entries[i].pattern) {
          assert entries[i] in entries;
          return Rejected(BadRequest);
        }
      }
      var (owner, status) := TargetOf(State(), principal);
      if owner.None? {
        return Rejected(status);
      }
      HeldRowsSound(State(), owner.value);
      var ok := RevokeEntries(owner.value, entries, writes);
      return if ok then Done else Rejected(Failed);
    }

    /** `CreateUser`, behind its gate, with the nested bootstrap grants. */
    method AddUser(name: string, pass: string, bootstrap: bool, writes: nat) returns (answer: Answer)
      modifies this`users, this`held, this`nextId
      ensures (State(), answer) == CreateUser(old(State()), name, pass, bootstrap, writes)
    {
      hide GrantAll, BOOTSTRAP_GRANTS;
      if name == "" || pass == "" {
        return Rejected(BadRequest);
      }
      if writes == 0 {
        return Rejected(Failed);
      }
      var id := FreshId();
      users := users[id := UserRow(name, pass)];
      if bootstrap {
        var ok := GrantEntries(OfUser(id), BOOTSTRAP_GRANTS, writes - 1);
        if !ok {
          return Rejected(Failed);
        }
      }
      return Done;
    }

    /** Deleting token rows, with their links. */
    method RemoveTokens(tokens: set<nat>)
      modifies this`caps, this`held
      ensures State() == DropCapabilities(old(State()), tokens)
    {
      caps := caps - tokens;
      held := map o | o in held && !(o.OfToken? && o.id in tokens) :: held[o];
    }

    /** Deleting a user row with its sessions, PATs and permission links. */
    method RemoveAccount(id: nat)
      modifies this`users, this`sessions, this`pats, this`held
      ensures State() == old(State()).(
                users := old(users) - {id},
                sessions := map s | s in old(sessions) && old(sessions)[s].userId != id :: old(sessions)[s],
                pats := map p | p in old(pats) && old(pats)[p].userId != id :: old(pats)[p],
                held := old(held) - {OfUser(id)})
    {
      sessions := map s | s in sessions && sessions[s].userId != id :: sessions[s];
      pats := map p | p in pats && pats[p].userId != id :: pats[p];
      held := held - {OfUser(id)};
      users := users - {id};
    }

    /** `DeleteUser`: the user's associations, then the user, in one transaction. */
    method RemoveUser(name: string, writes: nat) returns (answer: Answer)
      modifies this`users, this`sessions, this`pats, this`caps, this`held
      ensures (State(), answer) == DeleteUser(old(State()), name, writes)
    {
      hide FindUser, DropCapabilities;
      var id := FindUser(State(), name);
      if id.None? || writes == 0 {
        return Rejected(Failed);
      }
      RemoveTokens(set c | c in caps && caps[c].issuedBy == Some(id.value));
      RemoveAccount(id.value);
      return Done;
    }

    /** The insert loop of `AddAnonPermissions`. */
    method InsertAnon(entries: seq<Entry>, writes: nat) returns (ok: bool)
      modifies this`anon, this`nextId
      ensures ok == (|entries| <= writes)
      ensures var n := if ok then |entries| else writes;
              nextId == old(nextId) + n && anon == old(anon) + AnonRows(entries[..n], old(nextId))
    {
      ghost var added: seq<AnonPermission> := [];
      for i := 0 to |entries|
        invariant nextId == old(nextId) + i && i <= writes && |added| == i && anon == old(anon) + added
        invariant forall k :: 0 <= k < i ==>
                    added[k] == Anon(old(nextId) + k, entries[k].pattern, entries[k].verb, entries[k].expires)
      {
        if i == writes {
          assert added == AnonRows(entries[..i], old(nextId));
          return false;
        }
        var id := FreshId();
        var row := Anon(id, entries[i].pattern, entries[i].verb, entries[i].expires);
        Assoc(old(anon), added, [row]);
        anon := anon + [row];
        added := added + [row];
      }
      assert added == AnonRows(entries[..|entries|], old(nextId));
      return true;
    }

    /** `AddAnonPermissions`, behind its gate. */
    method AddAnonPermissions(entries: seq<Entry>, writes: nat) returns (answer: Answer)
      modifies this`anon, this`nextId
      ensures (State(), answer) == AddAnon(old(State()), entries, writes)
    {
      hide ValidateAddPattern, AnonRows;
      if |entries| == 0 {
        return Rejected(BadRequest);
      }
      for i := 0 to |entries|
        invariant State() == old(State())
        invariant forall k :: 0 <= k < i ==> ValidateAddPattern(entries[k].pattern)
      {
        if !ValidateAddPattern(entries[i].pattern) {
          assert entries[i] in entries;
          return Rejected(BadRequest);
        }
      }
      var ok := InsertAnon(entries, writes);
      assert entries[..|entries|] == entries;
      return if ok then Done else Rejected(Failed);
    }

    /** `DeleteAnonPermission`, behind its gate; a missing row is not an error. */
    method RemoveAnon(id: nat, writes: nat) returns (answer: Answer)
      modifies this`anon
      ensures (State(), answer) == DeleteAnon(old(State()), id, writes)
    {
      if writes == 0 {
        return Rejected(Failed);
      }
      anon := WithoutAnon(anon, id);
      return Done;
    }

    // --------------------------------------------------------------------------- checks

    /** `Check`: read the principal's permissions, then loop over them. */
    method CheckAccess(p: Principal, verb: Verb, namespace: string, name: string) returns (allowed: Result<bool>)
      ensures allowed == CheckPrincipal(State(), p, verb, namespace + "/" + name, clock)
      ensures allowed.Err? <==> PermissionsFor(State(), p).Err?
      ensures allowed.Ok? ==>
                (allowed.value <==> AnyGrants(PermissionsFor(State(), p).value, verb, namespace + "/" + name, clock))
    {
      hide Allows, AnyGrants;
      var permissions := PermissionsFor(State(), p);
      if permissions.Err? {
        return Err;
      }
      var ok := Check(permissions.value, verb, namespace, name, clock);
      return Ok(ok);
    }

    /** `CheckWithAnon`: own or anonymous, for a principal that can be read; unauthenticated
        callers have the anonymous set alone. */
    method CheckAccessWithAnon(p: Option<Principal>, verb: Verb, namespace: string, name: string)
      returns (allowed: Result<bool>)
      ensures allowed == CheckWithAnon(State(), p, verb, namespace + "/" + name, clock)
      ensures allowed.Err? <==> p.Some? && PermissionsFor(State(), p.value).Err?
      ensures allowed.Ok? ==> var resource := namespace + "/" + name;
                (allowed.value <==>
                 || AnyAnonGrants(anon, verb, resource, clock)
                 || (p.Some? && AnyGrants(PermissionsFor(State(), p.value).value, verb, resource, clock)))
    {
      hide Allows, AnonAllows, AnyGrants, AnyAnonGrants;
      if p.Some? {
        var own := CheckAccess(p.value, verb, namespace, name);
        if own.Err? || own.value {
          return own;
        }
      }
      var ok := CheckAnon(anon, verb, namespace, name, clock);
      return Ok(ok);
    }

    /** `NamespaceHandler`, `op=list`, from the principal on: a principal that cannot be read is a
        server error, and any other gets the listing owed to the rows read. */
    method ListNamespacesFor(p: Option<Principal>, stored: seq<string>) returns (listing: Result<seq<NamespaceEntry>>)
      requires NoDuplicates(stored)
      ensures listing.Err? <==> p.Some? && PermissionsFor(State(), p.value).Err?
      ensures listing.Ok? ==>
                var own := if p.None? then None else Some(PermissionsFor(State(), p.value).value);
                && NamesOnce(listing.value)
                && (forall e <- listing.value :: e.namespace != META_NS && NoDuplicates(e.verbs))
                && (forall e <- listing.value, v :: v in e.verbs <==> Owed(own, anon, e.namespace, v, clock))
                && (forall ns :: HasEntry(listing.value, ns) <==>
                      || Patterned(Held(own), anon, ns, clock)
                      || (HasMetaNS(own, List, clock) && ns != META_NS && ns in stored))
    {
      hide Owed, Patterned, HasMetaNS, HasEntry;
      var own := None;
      if p.Some? {
        var permissions := PermissionsFor(State(), p.value);
        if permissions.Err? {
          return Err;
        }
        own := Some(permissions.value);
      }
      var entries := ListNamespaces(own, anon, stored, clock);
      return Ok(entries);
    }

    // --------------------------------------------------------------- service accounts

    /** `GetOrCreateSA`. */
    method GetOrCreateAccount(namespace: string, name: string, writes: nat) returns (id: Option<nat>, left: nat)
      modifies this`sas, this`nextId
      ensures (State(), id, left) == GetOrCreateSa(old(State()), namespace, name, writes)
    {
      var found := FindSa(State(), namespace, name);
      if found.Some? {
        return found, writes;
      }
      if writes == 0 {
        return None, 0;
      }
      var newId := FreshId();
      sas := sas[newId := SaRow(namespace, name)];
      return Some(newId), writes - 1;
    }

    /** `ReplaceSAPermissions`: clear, create, link, in one transaction. */
    method ReplacePermissions(id: nat, entries: seq<Entry>)
      modifies this`held, this`nextId
      ensures State() == ReplaceRows(old(State()), id, entries)
    {
      hide RowsOf;
      var rows := CreateRows(entries);
      held := held[OfSa(id) := rows];
    }

    /** `syncSA`. */
    method SyncAccount(e: SaEntry, writes: nat) returns (ok: bool)
      modifies this`sas, this`held, this`nextId
      ensures (State(), ok) == SyncOne(old(State()), e, writes)
    {
      hide Filtered, ReplaceRows, FindSa;
      var id, left := GetOrCreateAccount(e.namespace, e.name, writes);
      if id.None? {
        return false;
      }
      var permissions := FilterPermissions(e.permissions);
      if left == 0 {
        return false;
      }
      ReplacePermissions(id.value, permissions);
      return left >= 2;
    }

    /** `applySync`, on a parsed configuration. */
    method SyncAccounts(entries: seq<SaEntry>, writes: seq<nat>)
      requires |writes| == |entries|
      modifies this`sas, this`held, this`nextId
      ensures State() == ApplySync(old(State()), entries, writes)
    {
      hide SyncOne;
      for i := 0 to |entries|
        invariant ApplySync(old(State()), entries, writes) == ApplySync(State(), entries[i..], writes[i..])
      {
        assert entries[i..][0] == entries[i] && entries[i..][1..] == entries[i + 1..];
        assert writes[i..][0] == writes[i] && writes[i..][1..] == writes[i + 1..];
        var ok := SyncAccount(entries[i], writes[i]);
      }
    }
  }

  /** The rows kept so far come from before position `i`. */
  ghost predicate KeptFrom(kept: seq<Permission>, rows: seq<Permission>, i: nat)
    requires i <= |rows|
  {
    forall p :: p in kept ==> p in rows[..i]
  }

  lemma RevokeFromStart(rows: seq<Permission>, e: Entry, writes: nat)
    ensures RevokeOne(rows, e, writes) == RevokeFrom([], rows[0..], e, writes)
    ensures [] + rows[0..] == rows && KeptFrom([], rows, 0)
  {
    RevokeFromIsRevokeOne([], rows, e, writes);
    assert rows[0..] == rows;
    assert [] + RevokeOne(rows, e, writes).0 == RevokeOne(rows, e, writes).0;
  }

  lemma RevokeFromEnd(kept: seq<Permission>, rows: seq<Permission>, e: Entry, left: nat)
    ensures RevokeFrom(kept, rows[|rows|..], e, left) == (kept, left, true) && kept + rows[|rows|..] == kept
  {
    assert rows[|rows|..] == [];
  }

  /** One turn of the loop: the next row is dropped or moves to those kept. */
  lemma NextRow(kept: seq<Permission>, rows: seq<Permission>, i: nat, e: Entry, left: nat)
    requires i < |rows| && KeptFrom(kept, rows, i)
    ensures kept + rows[i..] == kept + [rows[i]] + rows[i + 1..]
    ensures KeptFrom(kept, rows, i + 1) && KeptFrom(kept + [rows[i]], rows, i + 1)
    ensures RevokeFrom(kept, rows[i..], e, left) ==
            if RevokedBy(rows[i], e) then
              if left == 0 then (kept + rows[i..], 0, false) else RevokeFrom(kept, rows[i + 1..], e, left - 1)
            else RevokeFrom(kept + [rows[i]], rows[i + 1..], e, left)
  {
    hide RevokedBy;
    assert rows[i..][0] == rows[i] && rows[i..][1..] == rows[i + 1..];
    assert rows[..i + 1] == rows[..i] + [rows[i]];
  }

  /** `RevokeOne` with the rows kept so far accumulated on the left. */
  function RevokeFrom(kept: seq<Permission>, rows: seq<Permission>, e: Entry, writes: nat): (seq<Permission>, nat, bool)
    decreases |rows|
  {
    if rows == [] then (kept, writes, true)
    else if RevokedBy(rows[0], e) then
      if writes == 0 then (kept + rows, 0, false) else RevokeFrom(kept, rows[1..], e, writes - 1)
    else RevokeFrom(kept + [rows[0]], rows[1..], e, writes)
  }

  lemma {:induction false} RevokeFromIsRevokeOne(kept: seq<Permission>, rows: seq<Permission>, e: Entry, writes: nat)
    ensures var r := RevokeOne(rows, e, writes); RevokeFrom(kept, rows, e, writes) == (kept + r.0, r.1, r.2)
    decreases |rows|
  {
    hide RevokedBy;
    if rows == [] {
      assert kept + [] == kept;
    } else {
      if RevokedBy(rows[0], e) {
        if writes > 0 { RevokeFromIsRevokeOne(kept, rows[1..], e, writes - 1); }
      } else {
        RevokeFromIsRevokeOne(kept + [rows[0]], rows[1..], e, writes);
        Assoc(kept, [rows[0]], RevokeOne(rows[1..], e, writes).0);
      }
    }
  }

  function WithoutId(rows: seq<Permission>, id: nat): seq<Permission> {
    if rows == [] then [] else (if rows[0].id == id then [] else [rows[0]]) + WithoutId(rows[1..], id)
  }

  lemma {:induction false} WithoutIdAbsent(rows: seq<Permission>, id: nat)
    requires forall p <- rows :: p.id != id
    ensures WithoutId(rows, id) == rows
  {
    if rows != [] { WithoutIdAbsent(rows[1..], id); }
  }

  lemma {:induction false} WithoutIdConcat(a: seq<Permission>, b: seq<Permission>, id: nat)
    ensures WithoutId(a + b, id) == WithoutId(a, id) + WithoutId(b, id)
  {
    if a == [] {
      assert a + b == b;
    } else {
      WithoutIdConcat(a[1..], b, id);
      assert (a + b)[1..] == a[1..] + b;
      Assoc(if a[0].id == id then [] else [a[0]], WithoutId(a[1..], id), WithoutId(b, id));
    }
  }

  /** With distinct ids, unlinking the row at hand removes that row and no other. */
  lemma UnlinkedRows(rows: seq<Permission>, kept: seq<Permission>, i: nat)
    requires DistinctIds(rows) && i < |rows| && KeptFrom(kept, rows, i)
    ensures WithoutId(kept + rows[i..], rows[i].id) == kept + rows[i + 1..]
  {
    var id := rows[i].id;
    assert rows[i..][1..] == rows[i + 1..] && rows[i..][0] == rows[i];
    WithoutIdConcat(kept, rows[i..], id);
    WithoutIdAbsent(kept, id);
    WithoutIdAbsent(rows[i + 1..], id);
    assert WithoutId(rows[i..], id) == [] + rows[i + 1..];
    assert [] + rows[i + 1..] == rows[i + 1..];
  }

  /** One turn of the grant loop. */
  lemma GrantOneMore(db: Db, owner: Owner, entries: seq<Entry>, i: nat, writes: nat)
    requires i < |entries|
    ensures GrantAll(db, owner, entries[i..], writes) ==
            if writes == 0 then (db, false)
            else
              var db1 := db.(nextId := db.nextId + 1);
              var row := NewPermission(db.nextId, entries[i].pattern, entries[i].verb, entries[i].expires);
              if writes == 1 then (db1, false)
              else GrantAll(SetHeld(db1, owner, HeldBy(db1, owner) + [row]), owner, entries[i + 1..], writes - 2)
  {
    assert entries[i..][0] == entries[i] && entries[i..][1..] == entries[i + 1..];
  }

  lemma GrantNoMore(db: Db, owner: Owner, entries: seq<Entry>, writes: nat)
    ensures GrantAll(db, owner, entries[|entries|..], writes) == (db, true)
  {}
}
