/** Principals and the patterns an administrator may name (internal/authz/principal.go). */
module Principals {
  import opened Strings

  datatype Principal =
    | User(name: string)
    | ServiceAccount(namespace: string, saName: string)
    | Token(id: nat)

  function ParsePrincipal(s: string): Result<Principal> {
    FromParts(SplitN(s, '/', 3))
  }

  function FromParts(parts: seq<string>): Result<Principal>
    requires parts != []
  {
    if parts[0] == "user" then
      if |parts| != 2 || parts[1] == "" then Err else Ok(User(parts[1]))
    else if parts[0] == "sa" then
      if |parts| != 3 || parts[1] == "" || parts[2] == "" then Err
      else Ok(ServiceAccount(parts[1], parts[2]))
    else Err
  }

  /** The notation `ParsePrincipal` reads; capability tokens have none. */
  function Show(p: Principal): string
    requires !p.Token?
  {
    match p
    case User(name) => "user" + "/" + name
    case ServiceAccount(namespace, name) => "sa" + "/" + (namespace + "/" + name)
  }

  predicate Nameable(p: Principal) {
    match p
    case User(name) => name != "" && '/' !in name
    case ServiceAccount(namespace, name) => namespace != "" && '/' !in namespace && name != ""
    case Token(_) => false
  }

  lemma SplitUser(kind: string, name: string)
    requires '/' !in kind && '/' !in name
    ensures SplitN(kind + "/" + name, '/', 3) == [kind, name]
  {
    SplitNConcat(kind, '/', name, 3);
  }

  lemma SplitServiceAccount(kind: string, namespace: string, name: string)
    requires '/' !in kind && '/' !in namespace
    ensures SplitN(kind + "/" + (namespace + "/" + name), '/', 3) == [kind, namespace, name]
  {
    SplitNConcat(kind, '/', namespace + "/" + name, 3);
    SplitNConcat(namespace, '/', name, 2);
  }

  lemma ParseOfShow(p: Principal)
    requires Nameable(p)
    ensures ParsePrincipal(Show(p)) == Ok(p)
  {
    hide SplitN;
    match p
    case User(name) => SplitUser("user", name);
    case ServiceAccount(namespace, name) => SplitServiceAccount("sa", namespace, name);
  }

  lemma JoinTwo(s: string)
    requires |SplitN(s, '/', 3)| == 2
    ensures var parts := SplitN(s, '/', 3); s == parts[0] + "/" + parts[1] && '/' !in parts[1]
  {
    CutAt(s, '/');
    assert |SplitN(s[Index(s, '/') + 1..], '/', 2)| == 1;
  }

  lemma JoinRest(s: string)
    requires |SplitN(s, '/', 2)| == 2
    ensures var parts := SplitN(s, '/', 2); s == parts[0] + "/" + parts[1] && '/' !in parts[0]
  {
    CutAt(s, '/');
  }

  lemma JoinThree(s: string)
    requires |SplitN(s, '/', 3)| == 3
    ensures var parts := SplitN(s, '/', 3);
            s == parts[0] + "/" + (parts[1] + "/" + parts[2]) && '/' !in parts[1]
  {
    CutAt(s, '/');
    JoinRest(s[Index(s, '/') + 1..]);
  }

  lemma ShowOfParse(s: string)
    requires ParsePrincipal(s).Ok?
    ensures var p := ParsePrincipal(s).value; Nameable(p) && Show(p) == s
  {
    hide SplitN;
    if |SplitN(s, '/', 3)| == 2 { JoinTwo(s); } else { JoinThree(s); }
  }

  /** Parsing inverts printing on exactly the nameable principals, and accepts nothing else. */
  lemma ParseInvertsShow(s: string, p: Principal)
    ensures ParsePrincipal(s) == Ok(p) <==> Nameable(p) && s == Show(p)
  {
    if Nameable(p) { ParseOfShow(p); }
    if ParsePrincipal(s) == Ok(p) { ShowOfParse(s); }
  }

  predicate ValidateAddPattern(pattern: string) {
    var parts := SplitN(pattern, '/', 2);
    && |parts| == 2
    && parts[0] != "*" && parts[0] != "_"
    && parts[0] != "" && parts[1] != ""
  }

  predicate ValidateDeletePattern(pattern: string) {
    var parts := SplitN(pattern, '/', 2);
    && |parts| == 2
    && parts[0] != "_"
    && parts[0] != "" && parts[1] != ""
  }

  /** `ns` and `name` are the text before and after the first slash. */
  predicate Splits(pattern: string, ns: string, name: string) {
    '/' !in ns && pattern == ns + "/" + name
  }

  lemma SplitsOnce(pattern: string, ns: string, name: string)
    requires Splits(pattern, ns, name)
    ensures SplitN(pattern, '/', 2) == [ns, name]
  {
    SplitNConcat(ns, '/', name, 2);
  }

  lemma NoSlashNoSplit(pattern: string)
    ensures |SplitN(pattern, '/', 2)| == 2 <==> '/' in pattern
  {}

  /** Exactly the patterns an administrator may add, and those one may name in a revoke. */
  lemma ValidPatternsExactly(pattern: string, ns: string, name: string)
    requires Splits(pattern, ns, name)
    ensures ValidateAddPattern(pattern) <==> ns != "" && ns != "*" && ns != "_" && name != ""
    ensures ValidateDeletePattern(pattern) <==> ns != "" && ns != "_" && name != ""
  {
    hide SplitN;
    SplitsOnce(pattern, ns, name);
  }

  lemma SlashlessIsInvalid(pattern: string)
    requires '/' !in pattern
    ensures !ValidateAddPattern(pattern) && !ValidateDeletePattern(pattern)
  {
    NoSlashNoSplit(pattern);
  }
}
