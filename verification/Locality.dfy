/** Which tables each group of requests can reach. */
module Locality {
  import opened Strings
  import opened Authz
  import opened Access

  /** A grant touches its target's rows and the id counter only. */
  lemma {:induction false} GrantAllIsLocal(db: Db, owner: Owner, entries: seq<Entry>, writes: nat)
    ensures var db' := GrantAll(db, owner, entries, writes).0;
            && (forall o: Owner :: o != owner ==> HeldBy(db', o) == HeldBy(db, o))
            && db' == db.(held := db'.held, nextId := db'.nextId) && db.nextId <= db'.nextId
    decreases |entries|
  {
    if entries != [] && writes > 1 {
      var p := NewPermission(db.nextId, entries[0].pattern, entries[0].verb, entries[0].expires);
      GrantAllIsLocal(SetHeld(db.(nextId := db.nextId + 1), owner, HeldBy(db, owner) + [p]), owner, entries[1..],
                      writes - 2);
    }
  }

  lemma TargetIsNoToken(db: Db, principal: string)
    ensures TargetOf(db, principal).0.Some? ==> !TargetOf(db, principal).0.value.OfToken?
  {}

  /** Users, permission sets, the anonymous set and the id counter may change; tokens' sets do not. */
  ghost predicate AdminReach(db: Db, db': Db) {
    && db' == db.(users := db'.users, held := db'.held, anon := db'.anon, nextId := db'.nextId)
    && db.nextId <= db'.nextId
    && forall id: nat :: HeldBy(db', OfToken(id)) == HeldBy(db, OfToken(id))
  }

  lemma CreateUserIsLocal(db: Db, name: string, pass: string, bootstrap: bool, writes: nat)
    ensures AdminReach(db, CreateUser(db, name, pass, bootstrap, writes).0)
  {
    hide GrantAll, BOOTSTRAP_GRANTS;
    if writes > 0 { GrantAllIsLocal(InsertUser(db, name, pass), OfUser(db.nextId), BOOTSTRAP_GRANTS, writes - 1); }
  }

  lemma GrantIsLocal(db: Db, principal: string, entries: seq<Entry>, writes: nat)
    ensures AdminReach(db, Grant(db, principal, entries, writes).0)
  {
    hide GrantAll, TargetOf;
    TargetIsNoToken(db, principal);
    var owner := TargetOf(db, principal).0;
    if owner.Some? { GrantAllIsLocal(db, owner.value, entries, writes); }
  }

  lemma RevokeIsLocal(db: Db, principal: string, entries: seq<Entry>, writes: nat)
    ensures AdminReach(db, Revoke(db, principal, entries, writes).0)
  {
    hide RevokeAll, TargetOf;
    TargetIsNoToken(db, principal);
  }

  lemma AddAnonIsLocal(db: Db, entries: seq<Entry>, writes: nat)
    ensures AdminReach(db, AddAnon(db, entries, writes).0)
  {
    hide AnonRows, HeldBy;
    HeldSame(db, AddAnon(db, entries, writes).0);
  }

  lemma DeleteAnonIsLocal(db: Db, id: nat, writes: nat)
    ensures AdminReach(db, DeleteAnon(db, id, writes).0)
  {
    hide WithoutAnon;
  }

  lemma AdminIsLocal(db: Db, r: Request, bootstrap: bool, writes: nat)
    requires AdminVerb(r).Some? && !r.DeleteUserRequest?
    ensures AdminReach(db, HandleAdmin(db, r, bootstrap, writes).0)
  {
    hide CreateUser, Grant, Revoke, AddAnon, DeleteAnon, AdminReach;
    match r
    case CreateUserRequest(name, pass) => CreateUserIsLocal(db, name, pass, bootstrap, writes);
    case GrantRequest(principal, entries) => GrantIsLocal(db, principal, entries, writes);
    case RevokeRequest(principal, entries) => RevokeIsLocal(db, principal, entries, writes);
    case AddAnonRequest(entries) => AddAnonIsLocal(db, entries, writes);
    case DeleteAnonRequest(id) => DeleteAnonIsLocal(db, id, writes);
  }

  /** Personal and capability tokens may change; what users and service accounts hold does not,
      and a new token belongs to the caller or to nobody. */
  ghost predicate TokenReach(db: Db, db': Db, caller: Option<nat>) {
    && db' == db.(used := db'.used, clock := db'.clock, pats := db'.pats, caps := db'.caps, held := db'.held,
                  nextId := db'.nextId)
    && db.nextId <= db'.nextId
    && (forall o: Owner :: !o.OfToken? ==> HeldBy(db', o) == HeldBy(db, o))
    && (forall id <- db'.pats :: (id in db.pats && db'.pats[id] == db.pats[id]) || Some(db'.pats[id].userId) == caller)
    && (forall id <- db'.caps :: (id in db.caps && db'.caps[id] == db.caps[id]) || db'.caps[id].issuedBy == caller)
  }

  lemma InsertCapabilityReach(db: Db, c: Capability, entries: seq<Entry>, raws: Raws)
    ensures TokenReach(db, InsertCapability(Draw(db, raws), c, entries), c.issuedBy)
  {
    hide RowsOf;
  }

  lemma NothingReached(db: Db, raws: Raws, caller: Option<nat>)
    ensures TokenReach(db, db, caller) && TokenReach(db, Draw(db, raws), caller)
  {}

  lemma DropCapabilitiesReach(db: Db, gone: set<nat>, caller: Option<nat>)
    ensures TokenReach(db, DropCapabilities(db, gone), caller)
  {}

  lemma IssuePatReach(db: Db, userId: nat, expiry: Option<Time>, raws: Raws, writes: nat)
    ensures TokenReach(db, IssuePat(db, userId, expiry, raws, writes).0, Some(userId))
  {
    hide HeldBy;
    HeldSame(db, IssuePat(db, userId, expiry, raws, writes).0);
  }

  lemma RevokePatReach(db: Db, userId: nat, id: nat, writes: nat)
    ensures TokenReach(db, RevokePat(db, userId, id, writes).0, Some(userId))
  {
    hide HeldBy;
    HeldSame(db, RevokePat(db, userId, id, writes).0);
  }

  lemma HeldSame(db: Db, db': Db)
    requires db'.held == db.held
    ensures forall o: Owner :: HeldBy(db', o) == HeldBy(db, o)
  {}

  lemma OwnIsLocal(db: Db, userId: nat, r: Request, raws: Raws, writes: nat)
    requires userId in db.users
    ensures TokenReach(db, HandleOwn(db, userId, r, raws, writes).0, Some(userId))
  {
    hide TokenReach, DelegationRefusal, InsertCapability, DropCapabilities, IssuePat, RevokePat;
    NothingReached(db, raws, Some(userId));
    match r
    case IssuePatRequest(expiry) => IssuePatReach(db, userId, expiry, raws, writes);
    case RevokePatRequest(id) => RevokePatReach(db, userId, id, writes);
    case IssueCapabilityRequest(entries) =>
      InsertCapabilityReach(db, Capability(Some(userId), HashToken(CAPABILITY_PREFIX + raws.a), None), entries, raws);
    case RevokeCapabilityRequest(id) => DropCapabilitiesReach(db, {id}, Some(userId));
    case _ =>
  }

  lemma AnonTokenIsLocal(db: Db, ttl: Time, raws: Raws, writes: nat)
    ensures TokenReach(db, AnonToken(db, ttl, raws, writes).0, None)
  {
    hide TokenReach, InsertCapability, LiveAnon, AnonEntries;
    NothingReached(db, raws, None);
    var entries := AnonEntries(LiveAnon(db.anon, db.clock));
    InsertCapabilityReach(db, Capability(None, HashToken(CAPABILITY_PREFIX + raws.a), Some(raws.at + ttl)), entries,
                          raws);
  }
}
