/** Granting and revoking are exact and local (internal/store/permission.go, internal/api/admin.go). */
module Revocation {
  import opened Strings
  import opened Glob
  import opened Principals
  import opened Authz
  import opened Access
  import opened AccessInvariants
  import opened Credentials
  import opened Locality

  predicate RevokedByAny(p: Permission, entries: seq<Entry>) {
    exists e <- entries :: RevokedBy(p, e)
  }

  /** The rows no entry matches, in order. */
  function Surviving(rows: seq<Permission>, entries: seq<Entry>): (rest: seq<Permission>)
    ensures forall p :: p in rest <==> p in rows && !RevokedByAny(p, entries)
  {
    if rows == [] then []
    else Kept(rows[0], entries) + Surviving(rows[1..], entries)
  }

  lemma {:induction false} SurvivingIsOrderless(rows: seq<Permission>, a: seq<Entry>, b: seq<Entry>)
    requires forall e :: e in a <==> e in b
    ensures Surviving(rows, a) == Surviving(rows, b)
  {
    if rows != [] {
      SurvivingIsOrderless(rows[1..], a, b);
      assert RevokedByAny(rows[0], a) <==> RevokedByAny(rows[0], b);
    }
  }

  function Kept(p: Permission, entries: seq<Entry>): seq<Permission> {
    if RevokedByAny(p, entries) then [] else [p]
  }

  lemma {:induction false} SurvivingConcat(a: seq<Permission>, b: seq<Permission>, entries: seq<Entry>)
    ensures Surviving(a + b, entries) == Surviving(a, entries) + Surviving(b, entries)
  {
    hide RevokedByAny, Kept;
    if a == [] {
      assert a + b == b;
    } else {
      SurvivingConcat(a[1..], b, entries);
      assert (a + b)[1..] == a[1..] + b && (a + b)[0] == a[0];
      Assoc(Kept(a[0], entries), Surviving(a[1..], entries), Surviving(b, entries));
    }
  }

  /** Entries one after the other are entries together. */
  lemma {:induction false} SurvivingBoth(rows: seq<Permission>, a: seq<Entry>, b: seq<Entry>)
    ensures Surviving(Surviving(rows, a), b) == Surviving(rows, a + b)
  {
    if rows != [] {
      var p := rows[0];
      var rest := Surviving(rows[1..], a);
      SurvivingBoth(rows[1..], a, b);
      RevokedByBoth(p, a, b);
      if !RevokedByAny(p, a) {
        assert ([p] + rest)[1..] == rest;
      } else {
        assert [] + rest == rest;
      }
    }
  }

  lemma RevokedByBoth(p: Permission, a: seq<Entry>, b: seq<Entry>)
    ensures RevokedByAny(p, a + b) <==> RevokedByAny(p, a) || RevokedByAny(p, b)
  {
    hide RevokedBy;
    if e :| e in a && RevokedBy(p, e) { assert e in a + b; }
    if e :| e in b && RevokedBy(p, e) { assert e in a + b; }
  }

  /** Revoking twice is revoking once. */
  lemma SurvivingIsIdempotent(rows: seq<Permission>, entries: seq<Entry>)
    ensures Surviving(Surviving(rows, entries), entries) == Surviving(rows, entries)
  {
    hide Surviving;
    SurvivingBoth(rows, entries, entries);
    SurvivingIsOrderless(rows, entries + entries, entries);
  }

  // ---------------------------------------------------------------- the revoke loops

  /** One entry: exact when no unlink fails, and never less than what must survive. */
  lemma {:induction false} RevokeOneIsExact(rows: seq<Permission>, e: Entry, writes: nat)
    ensures var (rest, left, ok) := RevokeOne(rows, e, writes);
            && (ok ==> rest == Surviving(rows, [e]))
            && (forall p :: p in Surviving(rows, [e]) ==> p in rest)
            && (forall p :: p in rest ==> p in rows)
  {
    if rows != [] {
      assert RevokedByAny(rows[0], [e]) <==> RevokedBy(rows[0], e) by { assert e in [e]; }
      var w := if RevokedBy(rows[0], e) && writes > 0 then writes - 1 else writes;
      RevokeOneIsExact(rows[1..], e, w);
    }
  }

  lemma {:induction false} RevokeAllIsExact(rows: seq<Permission>, entries: seq<Entry>, writes: nat)
    ensures var (rest, ok) := RevokeAll(rows, entries, writes);
            && (ok ==> rest == Surviving(rows, entries))
            && (forall p :: p in rest ==> p in rows)
            && (forall p :: p in Surviving(rows, entries) ==> p in rest)
    decreases |entries|
  {
    hide RevokeOne, RevokedByAny;
    if entries == [] {
      SurvivingNothing(rows);
    } else {
      var (rest, left, ok) := RevokeOne(rows, entries[0], writes);
      RevokeOneIsExact(rows, entries[0], writes);
      assert [entries[0]] + entries[1..] == entries;
      SurvivingBoth(rows, [entries[0]], entries[1..]);
      RevokedEither(rows, entries);
      if ok { RevokeAllIsExact(rest, entries[1..], left); }
    }
  }

  lemma RevokedEither(rows: seq<Permission>, entries: seq<Entry>)
    requires entries != []
    ensures forall p :: p in Surviving(rows, entries) ==> p in Surviving(rows, [entries[0]])
  {}

  lemma {:induction false} SurvivingNothing(rows: seq<Permission>)
    ensures Surviving(rows, []) == rows
  {
    if rows != [] { SurvivingNothing(rows[1..]); }
  }

  /** Revocation is exact: a request that succeeds leaves its target precisely the rows no entry
      matches, in whatever order the entries came, and changes nothing else at all. */
  lemma RevokeIsExact(db: Db, principal: string, entries: seq<Entry>, writes: nat)
    requires Revoke(db, principal, entries, writes).1.Done?
    ensures var owner := TargetOf(db, principal).0;
            && owner.Some?
            && Revoke(db, principal, entries, writes).0 ==
               SetHeld(db, owner.value, Surviving(HeldBy(db, owner.value), entries))
  {
    hide RevokeAll, TargetOf, Surviving;
    var owner := TargetOf(db, principal).0;
    if owner.Some? { RevokeAllIsExact(HeldBy(db, owner.value), entries, writes); }
  }

  /** A delete pattern matches a row's pattern when each of its parts is a star or is the row's. */
  lemma DeletePatternExactly(a: string, b: string, c: string, d: string)
    requires '/' !in a && '/' !in c
    ensures MatchesDeletePattern(a + "/" + b, c + "/" + d) <==> (c == "*" || c == a) && (d == "*" || d == b)
  {
    SplitSlashConcat(a, b);
    SplitSlashConcat(c, d);
    if c + "/" + d == ANYTHING { SplitAnything(); }
  }

  /** The owner a named principal's grants and revokes go to, and whose rows its checks read. */
  lemma TargetReads(db: Db, db': Db, p: Principal)
    requires Nameable(p) && db'.users == db.users && db'.sas == db.sas && db'.nextId == db.nextId
    ensures ParsePrincipal(Show(p)) == Ok(p) && Show(p) != ""
    ensures var owner := TargetOf(db, Show(p)).0;
            && (owner.Some? <==> PermissionsFor(db, p).Ok?)
            && (owner.Some? ==> PermissionsFor(db', p) == Ok(HeldBy(db', owner.value)) && !owner.value.OfToken?)
            && TargetOf(db, Show(p)).1 == NotFound
  {
    hide ParsePrincipal;
    ParseOfShow(p);
  }

  /** The entry takes the row away: same verb, and each part of its pattern a star or the row's. */
  ghost predicate Takes(e: Entry, verb: Verb, ns: string, name: string) {
    && e.verb == verb
    && exists c, d :: Splits(e.pattern, c, d) && (c == "*" || c == ns) && (d == "*" || d == name)
  }

  lemma TakesExactly(e: Entry, row: Permission, ns: string, name: string)
    requires ValidateDeletePattern(e.pattern) && Splits(row.pattern, ns, name)
    ensures RevokedBy(row, e) <==> Takes(e, row.verb, ns, name)
  {
    hide MatchesDeletePattern;
    assert '/' in e.pattern by { if '/' !in e.pattern { SlashlessIsInvalid(e.pattern); } }
    var c, d := SplitSlash(e.pattern).0, SplitSlash(e.pattern).1;
    assert Splits(e.pattern, c, d);
    DeletePatternExactly(ns, name, c, d);
    forall c', d' | Splits(e.pattern, c', d') ensures c' == c && d' == d { SplitSlashConcat(c', d'); }
  }

  /** Revocation in the patterns' own text: a revoke that succeeds leaves a principal's row of pattern
      `ns/name` exactly when no entry has the row's verb and, part by part, a star or the row's text. */
  lemma RevokeByText(db: Db, p: Principal, entries: seq<Entry>, writes: nat, row: Permission, ns: string, name: string)
    requires Nameable(p) && Revoke(db, Show(p), entries, writes).1.Done? && Splits(row.pattern, ns, name)
    ensures var db' := Revoke(db, Show(p), entries, writes).0;
            && PermissionsFor(db, p).Ok? && PermissionsFor(db', p).Ok?
            && (row in PermissionsFor(db', p).value <==>
                row in PermissionsFor(db, p).value && forall e <- entries :: !Takes(e, row.verb, ns, name))
  {
    hide RevokeAll, TargetOf, Surviving, PermissionsFor, RevokedBy, Takes, ValidateDeletePattern, ParsePrincipal, Show;
    var db' := Revoke(db, Show(p), entries, writes).0;
    TargetReads(db, db, p);
    RevokeIsExact(db, Show(p), entries, writes);
    TargetReads(db, db', p);
    forall e | e in entries ensures RevokedBy(row, e) <==> Takes(e, row.verb, ns, name) {
      TakesExactly(e, row, ns, name);
    }
  }

  /** For one entry: the row stays when the verb differs, or either part is neither a star nor the
      row's. */
  lemma RevokeOneByText(db: Db, p: Principal, v: Verb, c: string, d: string, expires: Option<Time>, writes: nat,
                        row: Permission, a: string, b: string)
    requires Nameable(p) && '/' !in a && '/' !in c && row.pattern == a + "/" + b
    requires Revoke(db, Show(p), [Entry(v, c + "/" + d, expires)], writes).1.Done?
    requires PermissionsFor(db, p).Ok? && row in PermissionsFor(db, p).value
    ensures var db' := Revoke(db, Show(p), [Entry(v, c + "/" + d, expires)], writes).0;
            && PermissionsFor(db', p).Ok?
            && (row in PermissionsFor(db', p).value <==>
                row.verb != v || (c != "*" && c != a) || (d != "*" && d != b))
  {
    hide Revoke, PermissionsFor, Show;
    var e := Entry(v, c + "/" + d, expires);
    RevokeByText(db, p, [e], writes, row, a, b);
    assert Splits(e.pattern, c, d);
    forall c', d' | Splits(e.pattern, c', d') ensures c' == c && d' == d {
      SplitSlashConcat(c, d);
      SplitSlashConcat(c', d');
    }
    assert e in [e] && forall e' <- [e] :: e' == e;
    assert Takes(e, row.verb, a, b) <==> row.verb == v && (c == "*" || c == a) && (d == "*" || d == b);
  }

  /** Each row taken costs one write. */
  lemma {:induction false} RevokeOneSucceeds(rows: seq<Permission>, e: Entry, writes: nat)
    ensures |Surviving(rows, [e])| <= |rows|
    ensures var (rest, left, ok) := RevokeOne(rows, e, writes);
            var taken := |rows| - |Surviving(rows, [e])|;
            (ok <==> taken <= writes) && (ok ==> left == writes - taken)
  {
    if rows != [] {
      assert RevokedByAny(rows[0], [e]) <==> RevokedBy(rows[0], e) by { assert e in [e]; }
      RevokeOneSucceeds(rows[1..], e, if RevokedBy(rows[0], e) && writes > 0 then writes - 1 else writes);
    }
  }

  /** The revoke loops succeed exactly when there are writes for the rows the entries take. */
  lemma {:induction false} RevokeAllSucceeds(rows: seq<Permission>, entries: seq<Entry>, writes: nat)
    ensures |Surviving(rows, entries)| <= |rows|
    ensures RevokeAll(rows, entries, writes).1 <==> |rows| - |Surviving(rows, entries)| <= writes
    decreases |entries|
  {
    hide RevokeOne, RevokedByAny, Surviving;
    if entries == [] {
      SurvivingNothing(rows);
    } else {
      var e, rest := entries[0], entries[1..];
      RevokeOneIsExact(rows, e, writes);
      RevokeOneSucceeds(rows, e, writes);
      assert [e] + rest == entries;
      SurvivingBoth(rows, [e], rest);
      var left := RevokeOne(rows, e, writes).1;
      RevokeAllSucceeds(Surviving(rows, [e]), rest, left);
    }
  }

  /** When a revoke succeeds, exactly. */
  lemma RevokeAnswers(db: Db, p: Principal, entries: seq<Entry>, writes: nat)
    requires Nameable(p)
    ensures var answer := Revoke(db, Show(p), entries, writes).1;
            if entries == [] || exists e <- entries :: !ValidateDeletePattern(e.pattern)
            then answer == Rejected(BadRequest)
            else if PermissionsFor(db, p).Err? then answer == Rejected(NotFound)
            else
              var rows := PermissionsFor(db, p).value;
              answer == if |rows| - |Surviving(rows, entries)| <= writes then Done else Rejected(Failed)
  {
    hide RevokeAll, TargetOf, Surviving, PermissionsFor, ParsePrincipal, Show, ValidateDeletePattern;
    TargetReads(db, db, p);
    if PermissionsFor(db, p).Ok? { RevokeAllSucceeds(PermissionsFor(db, p).value, entries, writes); }
  }

  /** Even one that fails midway only takes rows away from its target, and leaves every other
      owner and the anonymous set alone. */
  lemma RevokeOnlyTakes(db: Db, principal: string, entries: seq<Entry>, writes: nat, o: Owner, verb: Verb,
                        resource: string, now: Time)
    ensures var db' := Revoke(db, principal, entries, writes).0;
            && (Some(o) != TargetOf(db, principal).0 ==> HeldBy(db', o) == HeldBy(db, o))
            && (Allows(HeldBy(db', o), verb, resource, now) ==> Allows(HeldBy(db, o), verb, resource, now))
            && db' == db.(held := db'.held)
  {
    hide RevokeAll, TargetOf, Covers;
    var owner := TargetOf(db, principal).0;
    if owner.Some? {
      RevokeAllIsExact(HeldBy(db, owner.value), entries, writes);
    }
  }

  // ------------------------------------------------------------------ grant and undo

  /** A grant that succeeds appends one row per entry to its target. */
  lemma {:induction false} GrantAllAppends(db: Db, owner: Owner, entries: seq<Entry>, writes: nat)
    requires GrantAll(db, owner, entries, writes).1
    ensures HeldBy(GrantAll(db, owner, entries, writes).0, owner) == HeldBy(db, owner) + RowsOf(entries, db.nextId)
    decreases |entries|
  {
    hide RowsOf;
    if entries == [] {
      assert RowsOf(entries, db.nextId) == [];
    } else {
      var p := NewPermission(db.nextId, entries[0].pattern, entries[0].verb, entries[0].expires);
      var db1 := SetHeld(db.(nextId := db.nextId + 1), owner, HeldBy(db, owner) + [p]);
      GrantAllAppends(db1, owner, entries[1..], writes - 2);
      GrantedRows(entries, db.nextId);
      Assoc(HeldBy(db, owner), [p], RowsOf(entries[1..], db.nextId + 1));
    }
  }

  /** Each entry takes two writes: the row and its link. */
  lemma {:induction false} GrantAllSucceeds(db: Db, owner: Owner, entries: seq<Entry>, writes: nat)
    ensures GrantAll(db, owner, entries, writes).1 <==> 2 * |entries| <= writes
    decreases |entries|
  {
    if entries != [] && writes > 1 {
      var p := NewPermission(db.nextId, entries[0].pattern, entries[0].verb, entries[0].expires);
      GrantAllSucceeds(SetHeld(db.(nextId := db.nextId + 1), owner, HeldBy(db, owner) + [p]), owner, entries[1..],
                       writes - 2);
    }
  }

  lemma GrantedRows(entries: seq<Entry>, firstId: nat)
    requires entries != []
    ensures RowsOf(entries, firstId) ==
            [NewPermission(firstId, entries[0].pattern, entries[0].verb, entries[0].expires)]
            + RowsOf(entries[1..], firstId + 1)
  {}

  lemma RevokedBySelf(e: Entry, id: nat)
    ensures RevokedBy(NewPermission(id, e.pattern, e.verb, e.expires), e)
  {}

  lemma {:induction false} NoneSurvive(rows: seq<Permission>, entries: seq<Entry>)
    requires forall i :: 0 <= i < |rows| ==> RevokedByAny(rows[i], entries)
    ensures Surviving(rows, entries) == []
  {
    hide RevokedByAny;
    if rows != [] { NoneSurvive(rows[1..], entries); }
  }

  lemma GrantedRowsAreRevoked(entries: seq<Entry>, firstId: nat)
    ensures Surviving(RowsOf(entries, firstId), entries) == []
  {
    hide RevokedBy, Surviving, NewPermission;
    var rows := RowsOf(entries, firstId);
    forall i | 0 <= i < |rows| ensures RevokedByAny(rows[i], entries) {
      RevokedBySelf(entries[i], firstId + i);
      assert entries[i] in entries;
    }
    NoneSurvive(rows, entries);
  }

  /** Revoking the entries of a grant undoes the grant: what is left is what revoking alone
      would have left. */
  lemma RevokeUndoesGrant(db: Db, principal: string, entries: seq<Entry>, writes: nat, writes': nat)
    requires Sound(db)
    requires Grant(db, principal, entries, writes).1.Done?
    requires Revoke(Grant(db, principal, entries, writes).0, principal, entries, writes').1.Done?
    ensures var owner := TargetOf(db, principal).0;
            var db1 := Grant(db, principal, entries, writes).0;
            var db2 := Revoke(db1, principal, entries, writes').0;
            && owner.Some?
            && HeldBy(db1, owner.value) == HeldBy(db, owner.value) + RowsOf(entries, db.nextId)
            && HeldBy(db2, owner.value) == Surviving(HeldBy(db, owner.value), entries)
            && forall o: Owner :: o != owner.value ==> HeldBy(db2, o) == HeldBy(db, o)
  {
    hide GrantAll, RevokeAll, TargetOf, Surviving, RowsOf, Sound, Revoke;
    var owner := TargetOf(db, principal).0.value;
    var db1 := Grant(db, principal, entries, writes).0;
    GrantAllAppends(db, owner, entries, writes);
    GrantAllIsLocal(db, owner, entries, writes);
    TargetSame(db, db1, principal);
    RevokeIsExact(db1, principal, entries, writes');
    SurvivingConcat(HeldBy(db, owner), RowsOf(entries, db.nextId), entries);
    GrantedRowsAreRevoked(entries, db.nextId);
    var kept := Surviving(HeldBy(db, owner), entries);
    assert kept + [] == kept;
  }

  lemma TargetSame(db: Db, db': Db, principal: string)
    requires Sound(db) && db'.users == db.users && db'.sas == db.sas && db.nextId <= db'.nextId
    ensures TargetOf(db', principal) == TargetOf(db, principal)
  {
    forall name ensures FindUser(db', name) == FindUser(db, name) { FindUserSame(db, db', name); }
    forall ns, name ensures FindSa(db', ns, name) == FindSa(db, ns, name) { FindSaStays(db, db', ns, name); }
  }

  lemma FindSaStays(db: Db, db': Db, ns: string, name: string)
    requires Sound(db) && db'.sas == db.sas && db.nextId <= db'.nextId
    ensures FindSa(db', ns, name) == FindSa(db, ns, name)
  {}

  /** The `*` / `*` shortcut says what the segment-wise comparison says. */
  lemma DeleteShortcutAgrees(existing: string)
    ensures var e, d := SplitSlash(existing), SplitSlash(ANYTHING);
            ((d.0 == "*" || d.0 == e.0) && (d.1 == "*" || d.1 == e.1)) == MatchesDeletePattern(existing, ANYTHING)
  {
    SplitAnything();
  }
}
