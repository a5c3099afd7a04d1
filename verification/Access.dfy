/** Accounts, credentials and permissions: the tables and what each request does to them
    (internal/auth, internal/api/auth.go, internal/api/tokens.go, internal/api/admin.go,
    internal/store, internal/k8s/sync.go). A request reads the clock for its tests and again,
    later, for the times it stores; `writes` is the number of its database writes that succeed
    before one fails. */
module Access {
  import opened Strings
  import opened Rows
  import opened Glob
  import opened Authz
  import opened Principals

  // ------------------------------------------------------------------------ tables

  /** A stored token hash. Hashing is modelled as injective and never blank. */
  datatype Digest = Blank | Of(token: string)

  function HashToken(token: string): Digest {
    Of(token)
  }

  const SESSION_PREFIX := "sess_"
  const REFRESH_PREFIX := "refr_"
  const PAT_PREFIX := "pat_"
  const CAPABILITY_PREFIX := "cap_"
  const SESSION_LIFETIME: Time := 15 * MINUTE

  datatype UserRow = UserRow(name: string, pass: string)
  datatype Session = Session(userId: nat, tokenHash: Digest, refreshHash: Digest, expiresAt: Time)
  datatype Pat = Pat(userId: nat, hash: Digest, expiry: Option<Time>)
  datatype Capability = Capability(issuedBy: Option<nat>, hash: Digest, expiresAt: Option<Time>)
  datatype SaRow = SaRow(namespace: string, name: string)

  datatype Owner = OfUser(id: nat) | OfSa(id: nat) | OfToken(id: nat)

  /** `held` joins each owner to its permission rows; a row linked to nobody has no effect and
      is not kept. `used` are the random strings drawn so far; `clock` is the latest reading. */
  datatype Db = Db(
    clock: Time,
    nextId: nat,
    used: set<string>,
    users: map<nat, UserRow>,
    sessions: map<nat, Session>,
    pats: map<nat, Pat>,
    caps: map<nat, Capability>,
    sas: map<nat, SaRow>,
    held: map<Owner, seq<Permission>>,
    anon: seq<AnonPermission>)

  function RowsIn(held: map<Owner, seq<Permission>>, owner: Owner): seq<Permission> {
    if owner in held then held[owner] else []
  }

  function HeldBy(db: Db, owner: Owner): seq<Permission> {
    RowsIn(db.held, owner)
  }

  // ----------------------------------------------------------------------- queries

  function FindUser(db: Db, name: string): Option<nat> {
    First(db.users, (u: UserRow) => u.name == name, 0, db.nextId)
  }

  function FindSa(db: Db, namespace: string, name: string): Option<nat> {
    First(db.sas, (s: SaRow) => s.namespace == namespace && s.name == name, 0, db.nextId)
  }

  function FindSession(db: Db, hash: Digest): Option<nat> {
    First(db.sessions, (s: Session) => s.tokenHash == hash, 0, db.nextId)
  }

  function FindRefresh(db: Db, hash: Digest): Option<nat> {
    First(db.sessions, (s: Session) => s.refreshHash == hash, 0, db.nextId)
  }

  function FindPat(db: Db, hash: Digest): Option<nat> {
    First(db.pats, (p: Pat) => p.hash == hash, 0, db.nextId)
  }

  function FindCapability(db: Db, hash: Digest): Option<nat> {
    First(db.caps, (c: Capability) => c.hash == hash, 0, db.nextId)
  }

  /** `permissionsForPrincipal`. */
  function PermissionsFor(db: Db, p: Principal): Result<seq<Permission>> {
    match p
    case User(name) =>
      var id := FindUser(db, name);
      if id.None? then Err else Ok(HeldBy(db, OfUser(id.value)))
    case ServiceAccount(namespace, name) =>
      var id := FindSa(db, namespace, name);
      if id.None? then Err else Ok(HeldBy(db, OfSa(id.value)))
    case Token(id) => Ok(HeldBy(db, OfToken(id)))
  }

  /** `Check`: an error when the principal cannot be read. */
  function CheckPrincipal(db: Db, p: Principal, verb: Verb, resource: string, now: Time): Result<bool> {
    var permissions := PermissionsFor(db, p);
    if permissions.Err? then Err else Ok(Allows(permissions.value, verb, resource, now))
  }

  /** `CheckWithAnon`. */
  function CheckWithAnon(db: Db, p: Option<Principal>, verb: Verb, resource: string, now: Time): Result<bool> {
    if p.None? then Ok(AnonAllows(db.anon, verb, resource, now))
    else
      var own := CheckPrincipal(db, p.value, verb, resource, now);
      if own == Ok(false) then Ok(AnonAllows(db.anon, verb, resource, now)) else own
  }

  // ---------------------------------------------------------------- authentication

  datatype Identity = ViaSession(userId: nat) | ViaPat(userId: nat) | ViaToken(id: nat) | ViaSa(id: nat)

  /** `resolveSession`. */
  function ResolveSession(db: Db, token: string, now: Time): Option<nat> {
    var id := FindSession(db, HashToken(token));
    if id.None? then None
    else
      var s := db.sessions[id.value];
      if now > s.expiresAt || s.userId !in db.users then None else Some(s.userId)
  }

  /** `resolvePAT`. */
  function ResolvePat(db: Db, token: string, now: Time): Option<nat> {
    var id := FindPat(db, HashToken(token));
    if id.None? then None
    else
      var p := db.pats[id.value];
      if (p.expiry.Some? && now > p.expiry.value) || p.userId !in db.users then None else Some(p.userId)
  }

  /** `resolveCapabilityToken`. */
  function ResolveCapability(db: Db, token: string, now: Time): Option<nat> {
    var id := FindCapability(db, HashToken(token));
    if id.None? then None
    else
      var c := db.caps[id.value];
      if c.expiresAt.Some? && now > c.expiresAt.value then None else Some(id.value)
  }

  function Count(s: string, c: char): nat {
    if s == "" then 0 else (if s[0] == c then 1 else 0) + Count(s[1..], c)
  }

  predicate LooksLikeJwt(s: string) {
    "eyJ" <= s && Count(s, '.') == 2
  }

  function InsertSa(db: Db, namespace: string, name: string): Db {
    db.(sas := db.sas[db.nextId := SaRow(namespace, name)], nextId := db.nextId + 1)
  }

  /** `GetOrCreateSA`: the table afterwards, the id unless the insert failed, and the writes left. */
  function GetOrCreateSa(db: Db, namespace: string, name: string, writes: nat): (Db, Option<nat>, nat) {
    match FindSa(db, namespace, name)
    case Some(id) => (db, Some(id), writes)
    case None =>
      if writes == 0 then (db, None, 0)
      else (InsertSa(db, namespace, name), Some(db.nextId), writes - 1)
  }

  /** `resolveToken`; `review` is what the Kubernetes TokenReview says of a JWT. */
  function Authenticate(db: Db, bearer: string, review: Option<(string, string)>, writes: nat)
    : (Db, Option<Identity>, nat)
  {
    if SESSION_PREFIX <= bearer then
      var u := ResolveSession(db, bearer, db.clock);
      (db, if u.None? then None else Some(ViaSession(u.value)), writes)
    else if PAT_PREFIX <= bearer then
      var u := ResolvePat(db, bearer, db.clock);
      (db, if u.None? then None else Some(ViaPat(u.value)), writes)
    else if CAPABILITY_PREFIX <= bearer then
      var c := ResolveCapability(db, bearer, db.clock);
      (db, if c.None? then None else Some(ViaToken(c.value)), writes)
    else if LooksLikeJwt(bearer) && review.Some? then
      var (db', id, left) := GetOrCreateSa(db, review.value.0, review.value.1, writes);
      (db', if id.None? then None else Some(ViaSa(id.value)), left)
    else (db, None, writes)
  }

  /** The user a session or PAT speaks for. */
  function UserOf(who: Identity): Option<nat> {
    match who
    case ViaSession(id) => Some(id)
    case ViaPat(id) => Some(id)
    case _ => None
  }

  // ---------------------------------------------------------------------- sessions

  datatype Status = BadRequest | Unauthorized | Forbidden | NotFound | Unavailable | Failed

  datatype Answer =
    | Done
    | Rejected(status: Status)
    | Tokens(session: string, refresh: string)
    | Issued(token: string)

  /** What a handler takes from its surroundings before it stores something: random strings and
      a reading of the clock. */
  datatype Raws = Raws(a: string, b: string, at: Time)

  function Tick(db: Db, raws: Raws): Db {
    db.(clock := raws.at)
  }

  function Draw(db: Db, raws: Raws): Db {
    Tick(db, raws).(used := db.used + {raws.a, raws.b})
  }

  function InsertSession(db: Db, userId: nat, raws: Raws): Db {
    var row := Session(userId, HashToken(SESSION_PREFIX + raws.a), HashToken(REFRESH_PREFIX + raws.b),
                       db.clock + SESSION_LIFETIME);
    db.(sessions := db.sessions[db.nextId := row], nextId := db.nextId + 1)
  }

  function DeleteSession(db: Db, id: nat): Db {
    db.(sessions := db.sessions - {id})
  }

  function InvalidateSession(db: Db, id: nat): Db
    requires id in db.sessions
  {
    db.(sessions := db.sessions[id := db.sessions[id].(expiresAt := db.clock - SECOND, refreshHash := Blank)])
  }

  function SessionTokens(raws: Raws): Answer {
    Tokens(SESSION_PREFIX + raws.a, REFRESH_PREFIX + raws.b)
  }

  function Login(db: Db, name: string, pass: string, raws: Raws, writes: nat): (Db, Answer) {
    if name == "" || pass == "" then (db, Rejected(BadRequest))
    else
      var u := FindUser(db, name);
      if u.None? || db.users[u.value].pass != pass then (db, Rejected(Unauthorized))
      else if writes == 0 then (Draw(db, raws), Rejected(Unauthorized))
      else (InsertSession(Draw(db, raws), u.value, raws), SessionTokens(raws))
  }

  /** The session a refresh token still stands for. */
  function Refreshable(db: Db, token: string): (r: Option<nat>)
    ensures r.Some? ==> r.value in db.sessions
  {
    if !(REFRESH_PREFIX <= token) then None
    else
      var id := FindRefresh(db, HashToken(token));
      if id.None? then None
      else
        var s := db.sessions[id.value];
        if db.clock > s.expiresAt || s.userId !in db.users then None else id
  }

  /** `Refresh`: the new session is inserted before the old one is deleted. */
  function Refresh(db: Db, token: string, raws: Raws, writes: nat): (Db, Answer) {
    if token == "" then (db, Rejected(BadRequest))
    else
      var id := Refreshable(db, token);
      if id.None? then (db, Rejected(Unauthorized))
      else if writes == 0 then (Draw(db, raws), Rejected(Unauthorized))
      else
        var db1 := InsertSession(Draw(db, raws), db.sessions[id.value].userId, raws);
        if writes == 1 then (db1, Rejected(Unauthorized))
        else (DeleteSession(db1, id.value), SessionTokens(raws))
  }

  /** `Logout` does not look at the expiry of the session it invalidates. */
  function Logout(db: Db, token: string, writes: nat): (Db, Answer) {
    if !(SESSION_PREFIX <= token) then (db, Rejected(Unauthorized))
    else
      var id := FindSession(db, HashToken(token));
      if id.None? || writes == 0 then (db, Rejected(Unauthorized))
      else (InvalidateSession(db, id.value), Done)
  }

  // ------------------------------------------------------------- issuing credentials

  datatype Entry = Entry(verb: Verb, pattern: string, expires: Option<Time>)

  function IssuePat(db: Db, userId: nat, expiry: Option<Time>, raws: Raws, writes: nat): (Db, Answer) {
    var token := PAT_PREFIX + raws.a;
    var db1 := Draw(db, raws);
    if writes == 0 then (db1, Rejected(Failed))
    else (db1.(pats := db1.pats[db1.nextId := Pat(userId, HashToken(token), expiry)], nextId := db1.nextId + 1),
          Issued(token))
  }

  function RevokePat(db: Db, userId: nat, id: nat, writes: nat): (Db, Answer) {
    if id !in db.pats then (db, Rejected(NotFound))
    else if db.pats[id].userId != userId then (db, Rejected(Unauthorized))
    else if writes == 0 then (db, Rejected(Failed))
    else (db.(pats := db.pats - {id}), Done)
  }

  /** A permission row per entry, under consecutive fresh ids. */
  function RowsOf(entries: seq<Entry>, firstId: nat): (rows: seq<Permission>)
    ensures |rows| == |entries|
    ensures forall i :: 0 <= i < |rows| ==>
              rows[i] == NewPermission(firstId + i, entries[i].pattern, entries[i].verb, entries[i].expires)
  {
    if entries == [] then []
    else
      [NewPermission(firstId, entries[0].pattern, entries[0].verb, entries[0].expires)]
      + RowsOf(entries[1..], firstId + 1)
  }

  /** The transaction that stores a capability token with its permissions. */
  function InsertCapability(db: Db, c: Capability, entries: seq<Entry>): Db {
    db.(caps := db.caps[db.nextId := c],
        held := db.held[OfToken(db.nextId) := RowsOf(entries, db.nextId + 1)],
        nextId := db.nextId + 1 + |entries|)
  }

  predicate WellFormedPattern(pattern: string) {
    var parts := SplitN(pattern, '/', 2);
    |parts| == 2 && parts[0] != "" && parts[1] != ""
  }

  /** The delegation check: the issuer passes `Check` on the text of the pattern. */
  predicate MayDelegate(db: Db, issuer: Principal, e: Entry) {
    CheckPrincipal(db, issuer, e.verb, e.pattern, db.clock) == Ok(true)
  }

  /** The first entry that stops issuance, and how. */
  function DelegationRefusal(db: Db, issuer: Principal, entries: seq<Entry>): Option<Status> {
    if entries == [] then None
    else if !WellFormedPattern(entries[0].pattern) then Some(BadRequest)
    else if !MayDelegate(db, issuer, entries[0]) then Some(Unauthorized)
    else DelegationRefusal(db, issuer, entries[1..])
  }

  function IssueCapability(db: Db, userId: nat, entries: seq<Entry>, raws: Raws, writes: nat): (Db, Answer)
    requires userId in db.users
  {
    var refusal := DelegationRefusal(db, User(db.users[userId].name), entries);
    if entries == [] then (db, Rejected(BadRequest))
    else if refusal.Some? then (db, Rejected(refusal.value))
    else if writes < 1 + 2 * |entries| then (Draw(db, raws), Rejected(Failed))
    else
      var token := CAPABILITY_PREFIX + raws.a;
      (InsertCapability(Draw(db, raws), Capability(Some(userId), HashToken(token), None), entries), Issued(token))
  }

  /** Deleting a token takes its permission links with it. */
  function DropCapabilities(db: Db, gone: set<nat>): Db {
    db.(caps := db.caps - gone, held := map o | o in db.held && !(o.OfToken? && o.id in gone) :: db.held[o])
  }

  function RevokeCapability(db: Db, userId: nat, id: nat, writes: nat): (Db, Answer) {
    if id !in db.caps then (db, Rejected(NotFound))
    else if db.caps[id].issuedBy != Some(userId) then (db, Rejected(Unauthorized))
    else if writes == 0 then (db, Rejected(Failed))
    else (DropCapabilities(db, {id}), Done)
  }

  function AnonEntries(rows: seq<AnonPermission>): (entries: seq<Entry>)
    ensures |entries| == |rows|
    ensures forall i :: 0 <= i < |rows| ==> entries[i] == Entry(rows[i].verb, rows[i].pattern, rows[i].expires)
  {
    if rows == [] then [] else [Entry(rows[0].verb, rows[0].pattern, rows[0].expires)] + AnonEntries(rows[1..])
  }

  /** `AnonToken`: a capability token carrying the anonymous set as it stands. */
  function AnonToken(db: Db, ttl: Time, raws: Raws, writes: nat): (Db, Answer) {
    var rows := LiveAnon(db.anon, db.clock);
    if rows == [] then (db, Rejected(Unavailable))
    else if writes < 1 + 2 * |rows| then (Draw(db, raws), Rejected(Failed))
    else
      var token := CAPABILITY_PREFIX + raws.a;
      (InsertCapability(Draw(db, raws), Capability(None, HashToken(token), Some(raws.at + ttl)), AnonEntries(rows)),
       Issued(token))
  }

  // ------------------------------------------------------------------ administration

  /** `requireMeta`: only a session speaks for an administrator. */
  predicate RequireMeta(db: Db, who: Identity, verb: Verb, resource: string) {
    && who.ViaSession? && who.userId in db.users
    && CheckPrincipal(db, User(db.users[who.userId].name), verb, MetaResource(resource), db.clock) == Ok(true)
  }

  function SetHeld(db: Db, owner: Owner, rows: seq<Permission>): Db {
    db.(held := db.held[owner := rows])
  }

  /** Create-and-link, entry by entry; the first failed write ends the loop. */
  function GrantAll(db: Db, owner: Owner, entries: seq<Entry>, writes: nat): (Db, bool)
    decreases |entries|
  {
    if entries == [] then (db, true)
    else if writes == 0 then (db, false)
    else
      var p := NewPermission(db.nextId, entries[0].pattern, entries[0].verb, entries[0].expires);
      var db1 := db.(nextId := db.nextId + 1);
      if writes == 1 then (db1, false)
      else GrantAll(SetHeld(db1, owner, HeldBy(db1, owner) + [p]), owner, entries[1..], writes - 2)
  }

  const BOOTSTRAP_GRANTS: seq<Entry> := [
    Entry(List, "_/users", None), Entry(Read, "_/users", None),
    Entry(Write, "_/users", None), Entry(Delete, "_/users", None),
    Entry(List, "_/sa", None), Entry(Read, "_/sa", None),
    Entry(List, "_/ns", None), Entry(Read, "_/ns", None), Entry(Write, "_/ns", None), Entry(Delete, "_/ns", None)]

  function InsertUser(db: Db, name: string, pass: string): Db {
    db.(users := db.users[db.nextId := UserRow(name, pass)], nextId := db.nextId + 1)
  }

  /** The part of `CreateUser` behind its gate. */
  function CreateUser(db: Db, name: string, pass: string, bootstrap: bool, writes: nat): (Db, Answer) {
    if name == "" || pass == "" then (db, Rejected(BadRequest))
    else if writes == 0 then (db, Rejected(Failed))
    else
      var db1 := InsertUser(db, name, pass);
      if !bootstrap then (db1, Done)
      else
        var (db2, ok) := GrantAll(db1, OfUser(db.nextId), BOOTSTRAP_GRANTS, writes - 1);
        (db2, if ok then Done else Rejected(Failed))
  }

  /** The cascade of `DeleteUser`: sessions, PATs, issued tokens and permission links. */
  function DropUser(db: Db, id: nat): Db {
    var tokens := set c | c in db.caps && db.caps[c].issuedBy == Some(id);
    var db1 := DropCapabilities(db, tokens);
    db1.(users := db1.users - {id},
         sessions := map s | s in db1.sessions && db1.sessions[s].userId != id :: db1.sessions[s],
         pats := map p | p in db1.pats && db1.pats[p].userId != id :: db1.pats[p],
         held := db1.held - {OfUser(id)})
  }

  function DeleteUser(db: Db, name: string, writes: nat): (Db, Answer) {
    var id := FindUser(db, name);
    if id.None? || writes == 0 then (db, Rejected(Failed)) else (DropUser(db, id.value), Done)
  }

  /** The principal named in a grant or revoke, resolved to the owner of its permissions. */
  function TargetOf(db: Db, principal: string): (Option<Owner>, Status) {
    match ParsePrincipal(principal)
    case Err => (None, BadRequest)
    case Ok(p) =>
      if p.User? then
        var id := FindUser(db, p.name);
        (if id.None? then None else Some(OfUser(id.value)), NotFound)
      else if p.ServiceAccount? then
        var id := FindSa(db, p.namespace, p.saName);
        (if id.None? then None else Some(OfSa(id.value)), NotFound)
      else (None, BadRequest)
  }

  function Grant(db: Db, principal: string, entries: seq<Entry>, writes: nat): (Db, Answer) {
    var (owner, status) := TargetOf(db, principal);
    if principal == "" || entries == [] || ParsePrincipal(principal).Err? then (db, Rejected(BadRequest))
    else if exists e <- entries :: !ValidateAddPattern(e.pattern) then (db, Rejected(BadRequest))
    else if owner.None? then (db, Rejected(status))
    else
      var (db', ok) := GrantAll(db, owner.value, entries, writes);
      (db', if ok then Done else Rejected(Failed))
  }

  /** `matchesDeletePattern`. */
  predicate MatchesDeletePattern(existing: string, deletePattern: string) {
    if deletePattern == ANYTHING then true
    else
      var e, d := SplitSlash(existing), SplitSlash(deletePattern);
      (d.0 == "*" || d.0 == e.0) && (d.1 == "*" || d.1 == e.1)
  }

  predicate RevokedBy(p: Permission, e: Entry) {
    p.verb == e.verb && MatchesDeletePattern(p.pattern, e.pattern)
  }

  /** One revoke entry over an owner's rows: the rows left, the writes left, and whether every
      unlink succeeded. */
  function RevokeOne(rows: seq<Permission>, e: Entry, writes: nat): (seq<Permission>, nat, bool) {
    if rows == [] then ([], writes, true)
    else if RevokedBy(rows[0], e) then
      if writes == 0 then (rows, 0, false) else RevokeOne(rows[1..], e, writes - 1)
    else
      var (rest, left, ok) := RevokeOne(rows[1..], e, writes);
      ([rows[0]] + rest, left, ok)
  }

  function RevokeAll(rows: seq<Permission>, entries: seq<Entry>, writes: nat): (seq<Permission>, bool)
    decreases |entries|
  {
    if entries == [] then (rows, true)
    else
      var (rest, left, ok) := RevokeOne(rows, entries[0], writes);
      if !ok then (rest, false) else RevokeAll(rest, entries[1..], left)
  }

  function Revoke(db: Db, principal: string, entries: seq<Entry>, writes: nat): (Db, Answer) {
    var (owner, status) := TargetOf(db, principal);
    if principal == "" || entries == [] || ParsePrincipal(principal).Err? then (db, Rejected(BadRequest))
    else if exists e <- entries :: !ValidateDeletePattern(e.pattern) then (db, Rejected(BadRequest))
    else if owner.None? then (db, Rejected(status))
    else
      var (rows, ok) := RevokeAll(HeldBy(db, owner.value), entries, writes);
      (SetHeld(db, owner.value, rows), if ok then Done else Rejected(Failed))
  }

  function AnonRows(entries: seq<Entry>, firstId: nat): (rows: seq<AnonPermission>)
    ensures |rows| == |entries|
    ensures forall i :: 0 <= i < |rows| ==>
              rows[i] == Anon(firstId + i, entries[i].pattern, entries[i].verb, entries[i].expires)
  {
    if entries == [] then []
    else [Anon(firstId, entries[0].pattern, entries[0].verb, entries[0].expires)] + AnonRows(entries[1..], firstId + 1)
  }

  function AddAnon(db: Db, entries: seq<Entry>, writes: nat): (Db, Answer) {
    if entries == [] || exists e <- entries :: !ValidateAddPattern(e.pattern) then (db, Rejected(BadRequest))
    else
      var stored := if writes < |entries| then entries[..writes] else entries;
      (db.(anon := db.anon + AnonRows(stored, db.nextId), nextId := db.nextId + |stored|),
       if stored == entries then Done else Rejected(Failed))
  }

  function WithoutAnon(rows: seq<AnonPermission>, id: nat): seq<AnonPermission> {
    if rows == [] then []
    else (if rows[0].id == id then [] else [rows[0]]) + WithoutAnon(rows[1..], id)
  }

  function DeleteAnon(db: Db, id: nat, writes: nat): (Db, Answer) {
    if writes == 0 then (db, Rejected(Failed)) else (db.(anon := WithoutAnon(db.anon, id)), Done)
  }

  // ----------------------------------------------------------------------- routing

  datatype Request =
    | LoginRequest(name: string, pass: string)
    | RefreshRequest(token: string)
    | LogoutRequest
    | AnonTokenRequest(ttl: Time)
    | IssuePatRequest(expiry: Option<Time>)
    | RevokePatRequest(id: nat)
    | IssueCapabilityRequest(entries: seq<Entry>)
    | RevokeCapabilityRequest(id: nat)
    | CreateUserRequest(name: string, pass: string)
    | DeleteUserRequest(name: string)
    | GrantRequest(principal: string, entries: seq<Entry>)
    | RevokeRequest(principal: string, entries: seq<Entry>)
    | AddAnonRequest(entries: seq<Entry>)
    | DeleteAnonRequest(id: nat)

  /** What surrounds a request: its time, random strings, failing write, the bootstrap tokens
      in force and the verdict of a token review. */
  datatype Context = Context(
    now: Time, raws: Raws, writes: nat, bootstrap: set<string>, review: Option<(string, string)>)

  /** The verb `_/users` must be held with, for the requests behind `requireMetaUser`. */
  function AdminVerb(r: Request): Option<Verb> {
    match r
    case CreateUserRequest(_, _) => Some(Write)
    case DeleteUserRequest(_) => Some(Delete)
    case GrantRequest(_, _) => Some(Write)
    case RevokeRequest(_, _) => Some(Write)
    case AddAnonRequest(_) => Some(Write)
    case DeleteAnonRequest(_) => Some(Write)
    case _ => None
  }

  function HandleAdmin(db: Db, r: Request, bootstrap: bool, writes: nat): (Db, Answer)
    requires AdminVerb(r).Some?
  {
    match r
    case CreateUserRequest(name, pass) => CreateUser(db, name, pass, bootstrap, writes)
    case DeleteUserRequest(name) => DeleteUser(db, name, writes)
    case GrantRequest(principal, entries) => Grant(db, principal, entries, writes)
    case RevokeRequest(principal, entries) => Revoke(db, principal, entries, writes)
    case AddAnonRequest(entries) => AddAnon(db, entries, writes)
    case DeleteAnonRequest(id) => DeleteAnon(db, id, writes)
  }

  /** Requests of a user's own, behind `UserContextKey`. */
  function HandleOwn(db: Db, userId: nat, r: Request, raws: Raws, writes: nat): (Db, Answer)
    requires userId in db.users
  {
    match r
    case IssuePatRequest(expiry) => IssuePat(db, userId, expiry, raws, writes)
    case RevokePatRequest(id) => RevokePat(db, userId, id, writes)
    case IssueCapabilityRequest(entries) => IssueCapability(db, userId, entries, raws, writes)
    case RevokeCapabilityRequest(id) => RevokeCapability(db, userId, id, writes)
    case _ => (db, Rejected(BadRequest))
  }

  /** The handlers, once the caller is known. */
  function Handle(db: Db, who: Identity, bearer: string, r: Request, raws: Raws, writes: nat): (Db, Answer) {
    if AdminVerb(r).Some? then
      if !RequireMeta(db, who, AdminVerb(r).value, META_USERS_RESOURCE) then (db, Rejected(Forbidden))
      else HandleAdmin(db, r, false, writes)
    else if r.RefreshRequest? then Refresh(db, r.token, raws, writes)
    else if r.LogoutRequest? then Logout(Tick(db, raws), bearer, writes)
    else
      var user := UserOf(who);
      if user.None? || user.value !in db.users then (db, Rejected(Unauthorized))
      else HandleOwn(db, user.value, r, raws, writes)
  }

  predicate IsBootstrap(c: Context, bearer: string, r: Request) {
    r.CreateUserRequest? && bearer != "" && bearer in c.bootstrap
  }

  function Arrive(db: Db, c: Context): Db {
    db.(clock := c.now)
  }

  /** `AuthMiddleware` and the handler behind it. */
  function Serve(db: Db, c: Context, bearer: string, r: Request): (Db, Answer) {
    var db0 := Arrive(db, c);
    if r.LoginRequest? then Login(db0, r.name, r.pass, c.raws, c.writes)
    else if r.AnonTokenRequest? then AnonToken(db0, r.ttl, c.raws, c.writes)
    else if IsBootstrap(c, bearer, r) then HandleAdmin(db0, r, true, c.writes)
    else if bearer == "" then (db0, Rejected(Unauthorized))
    else
      var (db1, who, left) := Authenticate(db0, bearer, c.review, c.writes);
      if who.None? then (db1, Rejected(Unauthorized))
      else Handle(db1, who.value, bearer, r, c.raws, left)
  }
}
