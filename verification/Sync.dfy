/** Service-account synchronisation from a parsed configuration (internal/k8s/sync.go,
    internal/store/sa.go). */
module Sync {
  import opened Strings
  import opened Glob
  import opened Principals
  import opened Authz
  import opened Access
  import opened AccessInvariants
  import Normalize

  datatype PermissionSpec = PermissionSpec(pattern: string, verb: string)
  datatype SaEntry = SaEntry(namespace: string, name: string, permissions: seq<PermissionSpec>)

  function ParseVerb(s: string): Option<Verb> {
    if s == "list" then Some(List)
    else if s == "read" then Some(Read)
    else if s == "write" then Some(Write)
    else if s == "delete" then Some(Delete)
    else None
  }

  /** The entry a permission line stands for, or nothing when the loop skips it. */
  function Kept(p: PermissionSpec): seq<Entry> {
    var pattern := Normalize.NormalizeResource(p.pattern);
    if pattern.Err? || !Normalize.ValidateResourcePattern(pattern.value) || ParseVerb(p.verb).None? then []
    else [Entry(ParseVerb(p.verb).value, pattern.value, None)]
  }

  function Filtered(specs: seq<PermissionSpec>): seq<Entry> {
    if specs == [] then [] else Kept(specs[0]) + Filtered(specs[1..])
  }

  lemma {:induction false} FilteredConcat(a: seq<PermissionSpec>, b: seq<PermissionSpec>)
    ensures Filtered(a + b) == Filtered(a) + Filtered(b)
  {
    hide Kept;
    if a == [] {
      assert a + b == b;
    } else {
      FilteredConcat(a[1..], b);
      assert (a + b)[1..] == a[1..] + b;
      Assoc(Kept(a[0]), Filtered(a[1..]), Filtered(b));
    }
  }

  /** The accumulation loop of `syncSA`. */
  method FilterPermissions(specs: seq<PermissionSpec>) returns (kept: seq<Entry>)
    ensures kept == Filtered(specs)
  {
    kept := [];
    for i := 0 to |specs|
      invariant kept == Filtered(specs[..i])
    {
      FilteredConcat(specs[..i], [specs[i]]);
      assert specs[..i + 1] == specs[..i] + [specs[i]];
      assert Filtered([specs[i]]) == Kept(specs[i]) + Filtered([]);
      var pattern := Normalize.NormalizeResource(specs[i].pattern);
      if pattern.Err? {
        continue;
      }
      if !Normalize.ValidateResourcePattern(pattern.value) {
        continue;
      }
      var verb := ParseVerb(specs[i].verb);
      if verb.None? {
        continue;
      }
      kept := kept + [Entry(verb.value, pattern.value, None)];
    }
    assert specs[..|specs|] == specs;
  }

  /** Every pattern the sync stores is canonical, in a namespace that is neither `*` nor `_`. */
  lemma {:induction false} FilteredIsCanonical(specs: seq<PermissionSpec>)
    ensures forall e <- Filtered(specs) :: e.expires.None? && exists a, b ::
              && Normalize.IsSegment(a) && Normalize.IsSegment(b) && e.pattern == a + "/" + b
              && a != "*" && a != "_"
  {
    if specs != [] {
      FilteredIsCanonical(specs[1..]);
      var pattern := Normalize.NormalizeResource(specs[0].pattern);
      if Kept(specs[0]) != [] {
        Normalize.NormalizeIsCanonical(specs[0].pattern);
        var a, b :| Normalize.IsSegment(a) && Normalize.IsSegment(b) && pattern.value == a + "/" + b;
        Normalize.ValidPatternShape(a, b);
      }
    }
  }

  // -------------------------------------------------------------------------- steps

  /** `ReplaceSAPermissions`, when its transaction commits. */
  function ReplaceRows(db: Db, id: nat, entries: seq<Entry>): Db {
    SetHeld(db, OfSa(id), RowsOf(entries, db.nextId)).(nextId := db.nextId + |entries|)
  }

  /** `syncSA`: get or create the row, replace its set, touch its timestamp; up to three writes. */
  function SyncOne(db: Db, e: SaEntry, writes: nat): (Db, bool) {
    var (db1, id, left) := GetOrCreateSa(db, e.namespace, e.name, writes);
    if id.None? || left == 0 then (db1, false)
    else (ReplaceRows(db1, id.value, Filtered(e.permissions)), left >= 2)
  }

  /** `applySync`: a failed entry is logged and the loop goes on. */
  function ApplySync(db: Db, entries: seq<SaEntry>, writes: seq<nat>): Db
    requires |writes| == |entries|
    decreases |entries|
  {
    if entries == [] then db else ApplySync(SyncOne(db, entries[0], writes[0]).0, entries[1..], writes[1..])
  }

  lemma SyncOneKeeps(db: Db, e: SaEntry, writes: nat)
    requires Sound(db)
    ensures Keeps(db, SyncOne(db, e, writes).0)
  {
    hide Sound, Evolves, Keeps, Filtered, FindSa, ReplaceRows;
    KeepsReflexively(db);
    var entries := Filtered(e.permissions);
    match FindSa(db, e.namespace, e.name)
    case Some(id) =>
      SaBounded(db, e.namespace, e.name);
      ReplaceRowsKeeps(db, id, entries);
    case None =>
      var db1 := InsertSa(db, e.namespace, e.name);
      InsertSaKeeps(db, e.namespace, e.name);
      KeptIsSound(db, db1);
      ReplaceRowsKeeps(db1, db.nextId, entries);
      KeepsTransitively(db, db1, ReplaceRows(db1, db.nextId, entries));
  }

  lemma ReplaceRowsKeeps(db: Db, id: nat, entries: seq<Entry>)
    requires Sound(db) && id < db.nextId
    ensures Keeps(db, ReplaceRows(db, id, entries))
  {
    hide Sound, Evolves, Keeps, RowsOf;
    var rows := RowsOf(entries, db.nextId);
    var db1 := db.(nextId := db.nextId + |entries|);
    SkipIdKeeps(db, |entries|);
    KeptIsSound(db, db1);
    RowsOfSound(entries, db.nextId);
    SetHeldKeeps(db1, OfSa(id), rows);
    KeepsTransitively(db, db1, SetHeld(db1, OfSa(id), rows));
  }

  lemma SaBounded(db: Db, namespace: string, name: string)
    requires FindSa(db, namespace, name).Some?
    ensures FindSa(db, namespace, name).value < db.nextId
  {}

  lemma {:induction false} ApplySyncKeeps(db: Db, entries: seq<SaEntry>, writes: seq<nat>)
    requires Sound(db) && |writes| == |entries|
    ensures Keeps(db, ApplySync(db, entries, writes))
    decreases |entries|
  {
    hide Sound, Evolves, Keeps, SyncOne;
    if entries == [] {
      KeepsReflexively(db);
    } else {
      var db1 := SyncOne(db, entries[0], writes[0]).0;
      SyncOneKeeps(db, entries[0], writes[0]);
      KeptIsSound(db, db1);
      ApplySyncKeeps(db1, entries[1..], writes[1..]);
      KeepsTransitively(db, db1, ApplySync(db1, entries[1..], writes[1..]));
    }
  }

  // -------------------------------------------------------------------- convergence

  /** A permission row without its id. */
  datatype Right = Right(pattern: string, verb: Verb, expires: Option<Time>)

  function Rights(rows: seq<Permission>): (r: seq<Right>)
    ensures |r| == |rows|
    ensures forall i :: 0 <= i < |rows| ==> r[i] == Right(rows[i].pattern, rows[i].verb, rows[i].expires)
  {
    seq(|rows|, i requires 0 <= i < |rows| => Right(rows[i].pattern, rows[i].verb, rows[i].expires))
  }

  /** What a service account may do, up to row ids; `None` when it has no row. */
  function RightsOf(db: Db, namespace: string, name: string): Option<seq<Right>> {
    var id := FindSa(db, namespace, name);
    if id.None? then None else Some(Rights(HeldBy(db, OfSa(id.value))))
  }

  /** What an entry prescribes. */
  function Prescribed(e: SaEntry): seq<Right> {
    Rights(RowsOf(Filtered(e.permissions), 0))
  }

  /** The last entry that mentions the account. */
  function LastMention(entries: seq<SaEntry>, namespace: string, name: string): Option<SaEntry> {
    if entries == [] then None
    else
      var last := entries[|entries| - 1];
      if last.namespace == namespace && last.name == name then Some(last)
      else LastMention(entries[..|entries| - 1], namespace, name)
  }

  lemma RightsIgnoreIds(entries: seq<Entry>, a: nat, b: nat)
    ensures Rights(RowsOf(entries, a)) == Rights(RowsOf(entries, b))
  {}

  lemma FindsSa(db: Db, id: nat)
    requires Sound(db) && id in db.sas
    ensures FindSa(db, db.sas[id].namespace, db.sas[id].name) == Some(id)
  {
    var found := FindSa(db, db.sas[id].namespace, db.sas[id].name);
    assert found.Some? ==> db.sas[found.value] == db.sas[id];
  }

  /** Inserting an account leaves every other one as it was. */
  lemma InsertSaFinds(db: Db, e: SaEntry, namespace: string, name: string)
    requires Sound(db) && FindSa(db, e.namespace, e.name).None?
    ensures FindSa(InsertSa(db, e.namespace, e.name), namespace, name) ==
            if namespace == e.namespace && name == e.name then Some(db.nextId) else FindSa(db, namespace, name)
  {
    var db1 := InsertSa(db, e.namespace, e.name);
    InsertSaKeeps(db, e.namespace, e.name);
    FindsSa(db1, db.nextId);
    if !(namespace == e.namespace && name == e.name) && FindSa(db, namespace, name).Some? {
      FindsSa(db1, FindSa(db, namespace, name).value);
    }
  }

  /** What one entry makes of the account it names: the new set whole or the old set whole. */
  function Synced(before: Option<seq<Right>>, e: SaEntry, writes: nat): Option<seq<Right>> {
    if before.Some? then if writes == 0 then before else Some(Prescribed(e))
    else if writes == 0 then None
    else if writes == 1 then Some([])
    else Some(Prescribed(e))
  }

  /** Exactly what one entry does, at whichever write it fails. */
  lemma SyncOneEffect(db: Db, e: SaEntry, writes: nat, namespace: string, name: string)
    requires Sound(db)
    ensures var before := RightsOf(db, namespace, name);
            RightsOf(SyncOne(db, e, writes).0, namespace, name) ==
            if namespace == e.namespace && name == e.name then Synced(before, e, writes) else before
  {
    hide Sound, Keeps, Filtered, ReplaceRows, InsertSa, FindSa;
    match FindSa(db, e.namespace, e.name)
    case Some(id) => ReplaceEffect(db, e, id, namespace, name);
    case None =>
      var db1 := InsertSa(db, e.namespace, e.name);
      InsertSaKeeps(db, e.namespace, e.name);
      KeptIsSound(db, db1);
      InsertSaFinds(db, e, e.namespace, e.name);
      InsertEffect(db, e, namespace, name);
      ReplaceEffect(db1, e, db.nextId, namespace, name);
  }

  lemma ReplaceEffect(db: Db, e: SaEntry, id: nat, namespace: string, name: string)
    requires Sound(db) && FindSa(db, e.namespace, e.name) == Some(id)
    ensures RightsOf(ReplaceRows(db, id, Filtered(e.permissions)), namespace, name) ==
            if namespace == e.namespace && name == e.name then Some(Prescribed(e)) else RightsOf(db, namespace, name)
  {
    hide Sound, Filtered, RowsOf;
    SasBounded(db);
    RightsIgnoreIds(Filtered(e.permissions), db.nextId, 0);
    FindSaSame(db, ReplaceRows(db, id, Filtered(e.permissions)), namespace, name);
    if !(namespace == e.namespace && name == e.name) { DifferentSas(db, e, namespace, name); }
  }

  lemma InsertEffect(db: Db, e: SaEntry, namespace: string, name: string)
    requires Sound(db) && FindSa(db, e.namespace, e.name).None?
    ensures RightsOf(InsertSa(db, e.namespace, e.name), namespace, name) ==
            if namespace == e.namespace && name == e.name then Some([]) else RightsOf(db, namespace, name)
  {
    hide Sound;
    InsertSaFinds(db, e, namespace, name);
    NewSaHoldsNothing(db);
  }

  lemma SasBounded(db: Db)
    requires Sound(db)
    ensures forall id <- db.sas :: id < db.nextId
  {}

  lemma NewSaHoldsNothing(db: Db)
    requires Sound(db)
    ensures HeldBy(db, OfSa(db.nextId)) == []
  {}

  /** Moving the id counter on does not change what is found. */
  lemma FindSaSame(db: Db, db': Db, namespace: string, name: string)
    requires db'.sas == db.sas && db.nextId <= db'.nextId && forall id <- db.sas :: id < db.nextId
    ensures FindSa(db', namespace, name) == FindSa(db, namespace, name)
  {}

  lemma DifferentSas(db: Db, e: SaEntry, namespace: string, name: string)
    requires !(namespace == e.namespace && name == e.name)
    ensures FindSa(db, e.namespace, e.name).Some? ==> FindSa(db, namespace, name) != FindSa(db, e.namespace, e.name)
  {}

  /** Every entry has the writes to insert and replace. */
  predicate Committed(writes: seq<nat>) {
    forall i :: 0 <= i < |writes| ==> writes[i] >= 2
  }

  lemma {:induction false} LastMentionFromLeft(entries: seq<SaEntry>, namespace: string, name: string)
    requires entries != []
    ensures LastMention(entries, namespace, name) ==
            var later := LastMention(entries[1..], namespace, name);
            if later.Some? then later
            else if entries[0].namespace == namespace && entries[0].name == name then Some(entries[0])
            else None
  {
    var n := |entries| - 1;
    if n > 0 {
      LastMentionFromLeft(entries[..n], namespace, name);
      assert entries[..n][1..] == entries[1..][..n - 1];
      assert entries[1..][n - 1] == entries[n];
    }
  }

  /** After any entries whose inserts and replacements succeed, each account has exactly the
      rights its last mention prescribes, and an account never mentioned is untouched. */
  lemma {:induction false} SyncConverges(db: Db, entries: seq<SaEntry>, writes: seq<nat>, namespace: string,
                                         name: string)
    requires Sound(db) && |writes| == |entries| && Committed(writes)
    ensures RightsOf(ApplySync(db, entries, writes), namespace, name) ==
            var last := LastMention(entries, namespace, name);
            if last.Some? then Some(Prescribed(last.value)) else RightsOf(db, namespace, name)
    decreases |entries|
  {
    hide Sound, SyncOne, RightsOf, Prescribed;
    if entries != [] {
      var db1 := SyncOne(db, entries[0], writes[0]).0;
      SyncOneKeeps(db, entries[0], writes[0]);
      KeptIsSound(db, db1);
      SyncOneEffect(db, entries[0], writes[0], namespace, name);
      SyncConverges(db1, entries[1..], writes[1..], namespace, name);
      LastMentionFromLeft(entries, namespace, name);
    }
  }

  // ------------------------------------------------------------------ what lines come to

  /** The text of a verb in a configuration. */
  function VerbText(v: Verb): string {
    match v
    case List => "list"
    case Read => "read"
    case Write => "write"
    case Delete => "delete"
  }

  /** A line grants a verb on a resource: its verb text is the verb's, and its pattern normalises to
      two segments, the first neither `*` nor `_`, in whose language the resource is. */
  ghost predicate LineGrants(p: PermissionSpec, v: Verb, resource: string) {
    && p.verb == VerbText(v)
    && exists a, b ::
         && Normalize.IsSegment(a) && Normalize.IsSegment(b) && a != "*" && a != "_"
         && Normalize.NormalizeResource(p.pattern) == Ok(a + "/" + b) && InPatternLanguage(a + "/" + b, resource)
  }

  lemma ParsesVerbText(s: string, v: Verb)
    ensures ParseVerb(s) == Some(v) <==> s == VerbText(v)
  {}

  predicate EntryGrants(e: Entry, v: Verb, resource: string) {
    e.verb == v && e.expires.None? && MatchesPattern(resource, e.pattern)
  }

  lemma KeptGrants(p: PermissionSpec, v: Verb, resource: string)
    ensures (exists e <- Kept(p) :: EntryGrants(e, v, resource)) <==> LineGrants(p, v, resource)
    ensures forall e <- Kept(p) :: e.expires.None?
  {
    hide MatchesPattern, InPatternLanguage, Normalize.NormalizeResource, Normalize.ValidateResourcePattern,
         ParseVerb, VerbText;
    ParsesVerbText(p.verb, v);
    var pattern := Normalize.NormalizeResource(p.pattern);
    if pattern.Ok? {
      Normalize.NormalizeIsCanonical(p.pattern);
      var a, b :| Normalize.IsSegment(a) && Normalize.IsSegment(b) && pattern.value == a + "/" + b;
      Normalize.ValidPatternShape(a, b);
      PatternDecidesLanguage(resource, a + "/" + b);
      OnlySegments(a, b);
      if Kept(p) != [] {
        assert Kept(p)[0] in Kept(p) && forall e <- Kept(p) :: e == Kept(p)[0];
      }
    }
  }

  /** Two segments are determined by their text. */
  lemma OnlySegments(a: string, b: string)
    requires Normalize.IsSegment(a) && Normalize.IsSegment(b)
    ensures forall c, d {:trigger Normalize.IsSegment(c), Normalize.IsSegment(d)} ::
              Normalize.IsSegment(c) && Normalize.IsSegment(d) && c + "/" + d == a + "/" + b ==> c == a && d == b
  {
    forall c, d | Normalize.IsSegment(c) && Normalize.IsSegment(d) && c + "/" + d == a + "/" + b
      ensures c == a && d == b
    {
      SplitSlashConcat(a, b);
      SplitSlashConcat(c, d);
    }
  }

  lemma {:induction false} FilteredGrants(specs: seq<PermissionSpec>, v: Verb, resource: string)
    ensures (exists e <- Filtered(specs) :: EntryGrants(e, v, resource)) <==>
            (exists p <- specs :: LineGrants(p, v, resource))
    ensures forall e <- Filtered(specs) :: e.expires.None?
  {
    hide Kept, LineGrants, EntryGrants;
    if specs != [] {
      KeptGrants(specs[0], v, resource);
      FilteredGrants(specs[1..], v, resource);
      assert forall e :: e in Filtered(specs) <==> e in Kept(specs[0]) || e in Filtered(specs[1..]);
      assert forall p :: p in specs <==> p == specs[0] || p in specs[1..];
    }
  }

  /** Rows allow what their rights say, whatever their ids. */
  lemma AllowsByRights(a: seq<Permission>, b: seq<Permission>, v: Verb, resource: string, now: Time)
    requires Rights(a) == Rights(b) && Allows(a, v, resource, now)
    ensures Allows(b, v, resource, now)
  {
    hide MatchesPattern;
    var p :| p in a && Covers(p, v, resource, now);
    var i :| 0 <= i < |a| && a[i] == p;
    assert Rights(a)[i] == Rights(b)[i];
    assert b[i] in b && Covers(b[i], v, resource, now);
  }

  lemma RowsAllowEntries(entries: seq<Entry>, firstId: nat, v: Verb, resource: string, now: Time)
    requires now <= NO_EXPIRY && forall e <- entries :: e.expires.None?
    ensures Allows(RowsOf(entries, firstId), v, resource, now) <==> exists e <- entries :: EntryGrants(e, v, resource)
  {
    hide MatchesPattern;
    var rows := RowsOf(entries, firstId);
    if Allows(rows, v, resource, now) {
      var p :| p in rows && Covers(p, v, resource, now);
      var i :| 0 <= i < |rows| && rows[i] == p;
      assert entries[i] in entries && EntryGrants(entries[i], v, resource);
    }
    if e :| e in entries && EntryGrants(e, v, resource) {
      var i :| 0 <= i < |entries| && entries[i] == e;
      assert rows[i] in rows && Covers(rows[i], v, resource, now);
    }
  }

  predicate Mentions(e: SaEntry, namespace: string, name: string) {
    e.namespace == namespace && e.name == name
  }

  lemma {:induction false} LastMentionAt(entries: seq<SaEntry>, namespace: string, name: string, i: nat)
    requires i < |entries| && Mentions(entries[i], namespace, name)
    requires forall j :: i < j < |entries| ==> !Mentions(entries[j], namespace, name)
    ensures LastMention(entries, namespace, name) == Some(entries[i])
    decreases |entries|
  {
    var n := |entries| - 1;
    if i < n {
      assert !Mentions(entries[n], namespace, name);
      LastMentionAt(entries[..n], namespace, name, i);
    }
  }

  /** Synchronisation in the configuration's own terms: after entries that commit, `Check` allows an
      account a verb on a resource exactly when some line of the account's last mention has the
      verb's text and a valid pattern that, normalised, has the resource in its language. */
  lemma SyncGrantsExactly(db: Db, entries: seq<SaEntry>, writes: seq<nat>, i: nat, v: Verb, resource: string, now: Time)
    requires Sound(db) && |writes| == |entries| && (forall k :: 0 <= k < |writes| ==> writes[k] >= 2)
    requires i < |entries| && now <= NO_EXPIRY
    requires forall j :: i < j < |entries| ==> !Mentions(entries[j], entries[i].namespace, entries[i].name)
    ensures var account := ServiceAccount(entries[i].namespace, entries[i].name);
            CheckPrincipal(ApplySync(db, entries, writes), account, v, resource, now) ==
            Ok(exists p <- entries[i].permissions :: LineGrants(p, v, resource))
  {
    hide Sound, ApplySync, LineGrants, EntryGrants, Filtered, RowsOf, Allows, FindSa, HeldBy, Rights;
    var e := entries[i];
    LastMentionAt(entries, e.namespace, e.name, i);
    SyncConverges(db, entries, writes, e.namespace, e.name);
    FilteredGrants(e.permissions, v, resource);
    RowsAllowEntries(Filtered(e.permissions), 0, v, resource, now);
    var rows := RowsOf(Filtered(e.permissions), 0);
    var db' := ApplySync(db, entries, writes);
    var held := HeldBy(db', OfSa(FindSa(db', e.namespace, e.name).value));
    if Allows(rows, v, resource, now) { AllowsByRights(rows, held, v, resource, now); }
    if Allows(held, v, resource, now) { AllowsByRights(held, rows, v, resource, now); }
  }

  /** Successive configurations act as their concatenation. */
  lemma {:induction false} ConfigsConcatenate(db: Db, a: seq<SaEntry>, wa: seq<nat>, b: seq<SaEntry>, wb: seq<nat>)
    requires |wa| == |a| && |wb| == |b|
    ensures ApplySync(db, a + b, wa + wb) == ApplySync(ApplySync(db, a, wa), b, wb)
    decreases |a|
  {
    hide SyncOne;
    if a == [] {
      assert a + b == b && wa + wb == wb;
    } else {
      ConfigsConcatenate(SyncOne(db, a[0], wa[0]).0, a[1..], wa[1..], b, wb);
      assert (a + b)[1..] == a[1..] + b && (wa + wb)[1..] == wa[1..] + wb;
    }
  }

  /** Applying a configuration again changes nothing but row ids. */
  lemma SyncIsIdempotent(db: Db, entries: seq<SaEntry>, writes: seq<nat>, again: seq<nat>, namespace: string,
                         name: string)
    requires Sound(db) && |writes| == |entries| == |again|
    requires Committed(writes) && Committed(again)
    ensures var db' := ApplySync(db, entries, writes);
            RightsOf(ApplySync(db', entries, again), namespace, name) == RightsOf(db', namespace, name)
  {
    hide Sound;
    var db' := ApplySync(db, entries, writes);
    ApplySyncKeeps(db, entries, writes);
    KeptIsSound(db, db');
    SyncConverges(db, entries, writes, namespace, name);
    SyncConverges(db', entries, again, namespace, name);
  }

  /** Nothing outside the service accounts and their sets. */
  ghost predicate OnlyAccounts(db: Db, db': Db) {
    && db'.users == db.users && db'.anon == db.anon
    && forall o: Owner :: !o.OfSa? ==> HeldBy(db', o) == HeldBy(db, o)
  }

  lemma ReplaceRowsLeavesUsersAlone(db: Db, id: nat, entries: seq<Entry>)
    ensures OnlyAccounts(db, ReplaceRows(db, id, entries))
  {
    hide RowsOf;
  }

  lemma SyncOneLeavesUsersAlone(db: Db, e: SaEntry, writes: nat)
    ensures OnlyAccounts(db, SyncOne(db, e, writes).0)
  {
    hide Filtered, FindSa, ReplaceRows, HeldBy;
    var db1 := InsertSa(db, e.namespace, e.name);
    InsertSaHeld(db, e.namespace, e.name);
    ReplaceRowsLeavesUsersAlone(db1, db.nextId, Filtered(e.permissions));
    if FindSa(db, e.namespace, e.name).Some? {
      ReplaceRowsLeavesUsersAlone(db, FindSa(db, e.namespace, e.name).value, Filtered(e.permissions));
    }
  }

  lemma InsertSaHeld(db: Db, namespace: string, name: string)
    ensures forall o: Owner :: HeldBy(InsertSa(db, namespace, name), o) == HeldBy(db, o)
  {}

  /** A sync never touches what users and tokens hold, nor the anonymous set. */
  lemma {:induction false} SyncLeavesUsersAlone(db: Db, entries: seq<SaEntry>, writes: seq<nat>)
    requires |writes| == |entries|
    ensures OnlyAccounts(db, ApplySync(db, entries, writes))
    decreases |entries|
  {
    hide SyncOne, HeldBy;
    if entries != [] {
      SyncOneLeavesUsersAlone(db, entries[0], writes[0]);
      SyncLeavesUsersAlone(SyncOne(db, entries[0], writes[0]).0, entries[1..], writes[1..]);
    }
  }
}
