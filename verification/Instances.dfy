/** Two runs from an empty installation: one in which a delegated token passes a check its issuer
    fails, and one in which a refresh stops between its two writes. */
module Instances {
  import opened Strings
  import opened Glob
  import opened Principals
  import opened Authz
  import opened Access
  import opened AccessInvariants
  import opened Credentials
  import opened Locality
  import opened Revocation
  import opened Delegation
  import opened Lineage
  import Admin

  const WIDE := "**" + "/" + "*"
  const DEEP := "a" + "/" + "b/c"
  const ANN := Principal.User("ann")
  const SESSION := SESSION_PREFIX + "3"

  function Moment(a: string, b: string): Context {
    Context(0, Raws(a, b, 0), 100, {"boot"}, None)
  }

  const CREATE := CreateUserRequest("ann", "pw")
  const LOGIN := LoginRequest("ann", "pw")
  const GRANT := GrantRequest(Show(ANN), [Entry(Read, WIDE, None)])
  const ISSUE := IssueCapabilityRequest([Entry(Read, ANYTHING, None)])

  /** Ann is bootstrapped, logs in, grants herself WIDE and issues a token for the shortcut. */
  const GAP_RUN: seq<Event> := [
    Call(Moment("1", "2"), "boot", CREATE),
    Call(Moment("3", "4"), "", LOGIN),
    Call(Moment("5", "6"), SESSION, GRANT),
    Call(Moment("7", "8"), SESSION, ISSUE)]

  /** Ann is the only user and holds exactly these rows. */
  ghost predicate AnnHolds(db: Db, rows: seq<Permission>, used: set<string>) {
    && Sound(db) && db.clock == 0 && db.used == used
    && db.users == map[0 := UserRow("ann", "pw")] && HeldBy(db, OfUser(0)) == rows
  }

  const BOOTSTRAP_ROWS := RowsOf(BOOTSTRAP_GRANTS, 1)

  lemma AnnIsFound(db: Db, rows: seq<Permission>, used: set<string>)
    requires AnnHolds(db, rows, used)
    ensures FindUser(db, "ann") == Some(0) && PermissionsFor(db, ANN) == Ok(rows)
  {
    hide SessionsSound, PatsSound, CapsSound, SasSound, HeldSound;
    assert 0 in db.users && db.users[0].name == "ann" && 0 < db.nextId;
    assert FindUser(db, "ann").Some?;
  }

  // ------------------------------------------------------------------------- the requests

  lemma AnnIsCreated()
    ensures AnnHolds(Serve(Initial(0), Moment("1", "2"), "boot", CREATE).0, BOOTSTRAP_ROWS, {})
  {
    hide Sound, Keeps, GrantAll, RowsOf, BOOTSTRAP_GRANTS, HeldBy;
    var db, c := Initial(0), Moment("1", "2");
    InitialIsSound(0);
    ServeKeeps(db, c, "boot", CREATE);
    KeptIsSound(db, Serve(db, c, "boot", CREATE).0);
    assert |BOOTSTRAP_GRANTS| == 10 by { TenGrants(); }
    var db1 := InsertUser(db, "ann", "pw");
    GrantAllSucceeds(db1, OfUser(0), BOOTSTRAP_GRANTS, 99);
    GrantAllAppends(db1, OfUser(0), BOOTSTRAP_GRANTS, 99);
    GrantAllIsLocal(db1, OfUser(0), BOOTSTRAP_GRANTS, 99);
    Admin.NewUserHoldsNothing(db, "ann", "pw");
    assert [] + BOOTSTRAP_ROWS == BOOTSTRAP_ROWS;
    assert Arrive(db, c) == db;
  }

  lemma TenGrants()
    ensures |BOOTSTRAP_GRANTS| == 10
  {}

  lemma AnnLogsIn(db: Db)
    requires AnnHolds(db, BOOTSTRAP_ROWS, {})
    ensures var db' := Serve(db, Moment("3", "4"), "", LOGIN).0;
            && AnnHolds(db', BOOTSTRAP_ROWS, {"3", "4"}) && ResolveSession(db', SESSION, 0) == Some(0)
            && Refreshable(db', REFRESH_PREFIX + "4").Some?
  {
    hide Sound, Keeps, BOOTSTRAP_ROWS, ResolveSession, FindUser;
    var c := Moment("3", "4");
    AnnIsFound(db, BOOTSTRAP_ROWS, {});
    ServeKeeps(db, c, "", LOGIN);
    KeptIsSound(db, Serve(db, c, "", LOGIN).0);
    NewTokensWork(db, 0, c.raws, 0);
    assert Arrive(db, c) == db;
  }

  lemma UsersMatchThemselves()
    ensures MatchesPattern("_" + "/" + "users", "_" + "/" + "users")
  {
    SplitSlashConcat("_", "users");
    PlainMatchIsEquality("_", "_");
    PlainMatchIsEquality("users", "users");
  }

  lemma ThirdGrant()
    ensures |BOOTSTRAP_GRANTS| > 2 && BOOTSTRAP_GRANTS[2] == Entry(Write, "_" + "/" + "users", None)
  {
    assert "_" + "/" + "users" == "_/users";
  }

  lemma MayAdminister()
    ensures Allows(BOOTSTRAP_ROWS, Write, MetaResource(META_USERS_RESOURCE), 0)
  {
    hide RowsOf, BOOTSTRAP_GRANTS, MatchesPattern;
    ThirdGrant();
    UsersMatchThemselves();
    var p := BOOTSTRAP_ROWS[2];
    assert p in BOOTSTRAP_ROWS && Covers(p, Write, MetaResource(META_USERS_RESOURCE), 0);
  }

  lemma WideIsValid()
    ensures ValidateAddPattern(WIDE)
  {
    SplitNConcat("**", '/', "*", 2);
  }

  lemma AnnGrants(db: Db)
    requires AnnHolds(db, BOOTSTRAP_ROWS, {"3", "4"}) && ResolveSession(db, SESSION, 0) == Some(0)
    ensures var db' := Serve(db, Moment("5", "6"), SESSION, GRANT).0;
            && AnnHolds(db', BOOTSTRAP_ROWS + RowsOf([Entry(Read, WIDE, None)], db.nextId), {"3", "4"})
            && ResolveSession(db', SESSION, 0) == Some(0)
  {
    hide Sound, Keeps, GrantAll, RowsOf, BOOTSTRAP_ROWS, ResolveSession, FindUser, HeldBy, ParsePrincipal, Show,
         ValidateAddPattern, WIDE, Allows;
    var c := Moment("5", "6");
    var entries := [Entry(Read, WIDE, None)];
    AnnIsFound(db, BOOTSTRAP_ROWS, {"3", "4"});
    ServeKeeps(db, c, SESSION, GRANT);
    KeptIsSound(db, Serve(db, c, SESSION, GRANT).0);
    assert Arrive(db, c) == db;
    MayAdminister();
    WideIsValid();
    ParseOfShow(ANN);
    ShownIsNotEmpty();
    GrantAllSucceeds(db, OfUser(0), entries, 100);
    GrantAllAppends(db, OfUser(0), entries, 100);
    GrantAllIsLocal(db, OfUser(0), entries, 100);
    SessionStaysGood(db, GrantAll(db, OfUser(0), entries, 100).0);
  }

  lemma ShownIsNotEmpty()
    ensures Show(ANN) != ""
  {}

  lemma SessionStaysGood(db: Db, db': Db)
    requires Sound(db) && db'.sessions == db.sessions && db'.users == db.users && db.nextId <= db'.nextId
    ensures ResolveSession(db', SESSION, 0) == ResolveSession(db, SESSION, 0)
  {
    hide Sound;
    FindMore(db, db', SESSION);
  }

  /** The text of the shortcut passes the check on WIDE, a resource in the gap does not pass. */
  lemma WideHasGap(rows: seq<Permission>, id: nat)
    requires rows == BOOTSTRAP_ROWS + RowsOf([Entry(Read, WIDE, None)], id)
    ensures Allows(rows, Read, ANYTHING, 0) && !Allows(rows, Read, DEEP, 0)
  {
    hide RowsOf, BOOTSTRAP_GRANTS, MatchesPattern;
    var wide := RowsOf([Entry(Read, WIDE, None)], id)[0];
    ShortcutGapExists();
    assert wide in rows && Covers(wide, Read, ANYTHING, 0);
    forall p | p in rows ensures !Covers(p, Read, DEEP, 0) {
      if p in BOOTSTRAP_ROWS {
        var i :| 0 <= i < |BOOTSTRAP_ROWS| && BOOTSTRAP_ROWS[i] == p;
        BootstrapMatchesNothingDeep(BOOTSTRAP_GRANTS[i]);
      }
    }
  }

  lemma MetaMatchesNothingDeep(resource: string)
    ensures !MatchesPattern(DEEP, "_" + "/" + resource)
  {
    SplitSlashConcat("_", resource);
    SplitSlashConcat("a", "b/c");
    PlainMatchIsEquality("_", "a");
    assert ("_" + "/" + resource)[0] == '_';
  }

  lemma BootstrapMatchesNothingDeep(e: Entry)
    requires e in BOOTSTRAP_GRANTS
    ensures !MatchesPattern(DEEP, e.pattern)
  {
    hide MatchesPattern;
    MetaMatchesNothingDeep("users");
    MetaMatchesNothingDeep("sa");
    MetaMatchesNothingDeep("ns");
    assert "_" + "/" + "users" == "_/users" && "_" + "/" + "sa" == "_/sa" && "_" + "/" + "ns" == "_/ns";
    assert e.pattern == "_/users" || e.pattern == "_/sa" || e.pattern == "_/ns";
  }

  lemma AnythingIsWellFormed()
    ensures WellFormedPattern(ANYTHING)
  {
    SplitNConcat("*", '/', "*", 2);
    assert "*" + "/" + "*" == ANYTHING;
  }

  lemma AnnIssues(db: Db, id: nat)
    requires AnnHolds(db, BOOTSTRAP_ROWS + RowsOf([Entry(Read, WIDE, None)], id), {"3", "4"})
    requires ResolveSession(db, SESSION, 0) == Some(0)
    ensures var db' := Serve(db, Moment("7", "8"), SESSION, ISSUE).0;
            var token := ResolveCapability(db', CAPABILITY_PREFIX + "7", 0);
            && token.Some? && db'.caps[token.value].issuedBy == Some(0)
            && CheckPrincipal(db', Token(token.value), Read, DEEP, 0) == Ok(true)
            && CheckPrincipal(db', ANN, Read, DEEP, 0) == Ok(false)
  {
    hide Sound, Keeps, RowsOf, BOOTSTRAP_ROWS, ResolveSession, ResolveCapability, FindUser, HeldBy,
         WellFormedPattern, Allows, WIDE, DEEP;
    var c := Moment("7", "8");
    var rows := BOOTSTRAP_ROWS + RowsOf([Entry(Read, WIDE, None)], id);
    var entries := [Entry(Read, ANYTHING, None)];
    AnnIsFound(db, rows, {"3", "4"});
    WideHasGap(rows, id);
    AnythingIsWellFormed();
    assert Arrive(db, c) == db;
    assert DelegationRefusal(db, ANN, entries).None?;
    TokenResolves(db, Some(0), None, entries, c.raws, 0);
    IssuerUnchanged(db, Some(0), None, entries, c.raws, "ann");
    AnythingAllowsDeep(db.nextId + 1);
  }

  lemma AnythingAllowsDeep(firstId: nat)
    ensures Allows(RowsOf([Entry(Read, ANYTHING, None)], firstId), Read, DEEP, 0)
  {
    var rows := RowsOf([Entry(Read, ANYTHING, None)], firstId);
    assert Covers(rows[0], Read, DEEP, 0);
  }

  // ------------------------------------------------------------------------------ the run

  /** At the end of the run the token Ann issued passes a check that Ann fails. */
  lemma GapIsReachable()
    ensures FeasibleRun(Initial(0), GAP_RUN)
    ensures var db := Run(Initial(0), GAP_RUN);
            var token := ResolveCapability(db, CAPABILITY_PREFIX + "7", 0);
            && token.Some? && db.caps[token.value].issuedBy == Some(0)
            && CheckPrincipal(db, Token(token.value), Read, DEEP, 0) == Ok(true)
            && CheckPrincipal(db, ANN, Read, DEEP, 0) == Ok(false)
  {
    hide Serve, CheckPrincipal, ResolveCapability, ResolveSession, HeldBy, RowsOf, BOOTSTRAP_ROWS, Sound;
    var db0 := Initial(0);
    AnnIsCreated();
    var db1 := Serve(db0, Moment("1", "2"), "boot", CREATE).0;
    AnnLogsIn(db1);
    var db2 := Serve(db1, Moment("3", "4"), "", LOGIN).0;
    AnnGrants(db2);
    var db3 := Serve(db2, Moment("5", "6"), SESSION, GRANT).0;
    AnnIssues(db3, db2.nextId);
    RunsOne(db3, GAP_RUN[3..]);
    RunsOne(db2, GAP_RUN[2..]);
    RunsOne(db1, GAP_RUN[1..]);
    RunsOne(db0, GAP_RUN);
  }

  lemma RunsOne(db: Db, events: seq<Event>)
    requires events != [] && FeasibleEvent(db, events[0])
    ensures FeasibleRun(db, events) <==> FeasibleRun(After(db, events[0]), events[1..])
    ensures FeasibleRun(db, events) ==> Run(db, events) == Run(After(db, events[0]), events[1..])
  {}

  // ------------------------------------------------------------------- a half-done refresh

  const REFRESH := RefreshRequest(REFRESH_PREFIX + "4")

  /** Ann is bootstrapped, logs in and refreshes, and the second write of the refresh fails. */
  const HALF_RUN: seq<Event> := [
    Call(Moment("1", "2"), "boot", CREATE),
    Call(Moment("3", "4"), "", LOGIN),
    Call(Moment("9", "10").(writes := 1), SESSION, REFRESH)]

  lemma AnnHalfRefreshes(db: Db)
    requires AnnHolds(db, BOOTSTRAP_ROWS, {"3", "4"}) && ResolveSession(db, SESSION, 0) == Some(0)
    requires Refreshable(db, REFRESH_PREFIX + "4").Some?
    ensures FeasibleEvent(db, HALF_RUN[2]) && DoublingRefresh(db, HALF_RUN[2])
  {
    hide Sound, BOOTSTRAP_ROWS, ResolveSession, HeldBy;
    assert Arrive(db, HALF_RUN[2].c) == db;
    RefreshableRow(db, REFRESH_PREFIX + "4");
  }

  /** After the first two requests each login has one accepted session, the third is a half-done
      refresh, and then a login has two. */
  lemma HalfRefreshIsReachable()
    ensures FeasibleRun(Initial(0), HALF_RUN) && FeasibleRun(Initial(0), HALF_RUN[..2])
    ensures var db := Run(Initial(0), HALF_RUN[..2]);
            && OneSession(Follow(NO_FAMILY, Initial(0), HALF_RUN[..2]), db)
            && DoublingRefresh(db, HALF_RUN[2])
    ensures !OneSession(Follow(NO_FAMILY, Initial(0), HALF_RUN), Run(Initial(0), HALF_RUN))
  {
    hide Serve, ResolveSession, Refreshable, HeldBy, BOOTSTRAP_ROWS, Sound, OneSession, Bounded, Single,
         DoublingRefresh, Track, Keeps, Unhalved;
    var db0 := Initial(0);
    AnnIsCreated();
    var db1 := Serve(db0, Moment("1", "2"), "boot", CREATE).0;
    AnnLogsIn(db1);
    var db2 := Serve(db1, Moment("3", "4"), "", LOGIN).0;
    AnnHalfRefreshes(db2);
    var f1 := Track(NO_FAMILY, db0, HALF_RUN[0]);
    var f2 := Track(f1, db1, HALF_RUN[1]);
    InitialIsSound(0);
    StartsBounded(0);
    EventTracks(NO_FAMILY, db0, HALF_RUN[0]);
    EventTracks(f1, db1, HALF_RUN[1]);
    NoRefreshNoDoubling(db0, HALF_RUN[0]);
    NoRefreshNoDoubling(db1, HALF_RUN[1]);
    SingleHasOneSession(f2, db2);
    DoublingLeavesTwo(f2, db2, HALF_RUN[2]);
    assert HALF_RUN[..2] == [HALF_RUN[0], HALF_RUN[1]];
    assert HALF_RUN[..2][1..] == [HALF_RUN[1]] && HALF_RUN[..2][1..][1..] == [];
    assert HALF_RUN[1..][0] == HALF_RUN[1] && HALF_RUN[1..][1..] == [HALF_RUN[2]] && [HALF_RUN[2]][1..] == [];
    FollowsOne(NO_FAMILY, db0, HALF_RUN);
    FollowsOne(f1, db1, HALF_RUN[1..]);
    FollowsOne(f2, db2, [HALF_RUN[2]]);
    FollowsOne(NO_FAMILY, db0, HALF_RUN[..2]);
    FollowsOne(f1, db1, [HALF_RUN[1]]);
  }

  lemma NoRefreshNoDoubling(db: Db, e: Event)
    requires e.Call? && !e.r.RefreshRequest?
    ensures !DoublingRefresh(db, e)
  {}

  lemma FollowsOne(f: Family, db: Db, events: seq<Event>)
    requires events != [] && FeasibleEvent(db, events[0])
    ensures FeasibleRun(db, events) <==> FeasibleRun(After(db, events[0]), events[1..])
    ensures FeasibleRun(db, events) ==>
              && Run(db, events) == Run(After(db, events[0]), events[1..])
              && Follow(f, db, events) == Follow(Track(f, db, events[0]), After(db, events[0]), events[1..])
  {}
}
