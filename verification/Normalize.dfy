/** Canonical forms of resources and subjects (internal/authz/normalize.go,
    internal/k8s/tokenreview.go, internal/orm/permissions.go). */
module Normalize {
  import opened Strings

  // ---------------------------------------------------------------- path parts

  /** The segment trimmed, or nothing when only spaces are left. */
  function Kept(segment: string): seq<string> {
    if Trim(segment) == "" then [] else [Trim(segment)]
  }

  /** The trimmed, non-empty segments, in order. */
  function Tidy(segments: seq<string>): seq<string> {
    if segments == [] then [] else Kept(segments[0]) + Tidy(segments[1..])
  }

  function PathParts(s: string): seq<string> {
    Tidy(Split(s, '/'))
  }

  lemma {:induction false} TidyConcat(a: seq<string>, b: seq<string>)
    ensures Tidy(a + b) == Tidy(a) + Tidy(b)
  {
    hide Kept;
    if a == [] {
      assert a + b == b;
    } else {
      TidyConcat(a[1..], b);
      assert (a + b)[1..] == a[1..] + b && (a + b)[0] == a[0];
      Assoc(Kept(a[0]), Tidy(a[1..]), Tidy(b));
    }
  }

  lemma TidySingle(segment: string)
    ensures Tidy([segment]) == Kept(segment)
  {
    assert [segment][1..] == [];
    assert Tidy([]) == [];
  }

  method SplitPathParts(s: string) returns (parts: seq<string>)
    ensures parts == PathParts(s)
  {
    var segments := Split(s, '/');
    parts := [];
    for i := 0 to |segments|
      invariant parts == Tidy(segments[..i])
    {
      var segment := Trim(segments[i]);
      TidyConcat(segments[..i], [segments[i]]);
      assert segments[..i + 1] == segments[..i] + [segments[i]];
      TidySingle(segments[i]);
      if segment == "" {
        continue;
      }
      parts := parts + [segment];
    }
    assert segments[..|segments|] == segments;
  }

  /** A canonical path segment. */
  predicate IsSegment(s: string) {
    s != "" && Trimmed(s) && '/' !in s
  }

  lemma {:induction false} SplitIsSlashFree(s: string)
    ensures forall part <- Split(s, '/') :: '/' !in part
    decreases |s|
  {
    var i := Index(s, '/');
    if i < |s| {
      SplitIsSlashFree(s[i + 1..]);
    }
  }

  lemma {:induction false} TidySegments(segments: seq<string>)
    requires forall s <- segments :: '/' !in s
    ensures forall t <- Tidy(segments) :: IsSegment(t)
  {
    if segments != [] {
      TidySegments(segments[1..]);
      var l, r := TrimParts(segments[0]);
      assert forall c <- Trim(segments[0]) :: c in l + Trim(segments[0]) + r;
    }
  }

  lemma PartsAreSegments(s: string)
    ensures forall i :: 0 <= i < |PathParts(s)| ==> IsSegment(PathParts(s)[i])
  {
    SplitIsSlashFree(s);
    TidySegments(Split(s, '/'));
  }

  lemma PathPartsConcat(a: string, b: string)
    ensures PathParts(a + "/" + b) == PathParts(a) + PathParts(b)
  {
    SplitConcat(a, '/', b);
    TidyConcat(Split(a, '/'), Split(b, '/'));
  }

  lemma PathPartsOfSegment(s: string)
    requires IsSegment(s)
    ensures PathParts(s) == [s]
  {
    TrimOfTrimmed(s);
    TidyOne(s);
  }

  // ------------------------------------------------------- padding is invisible

  /** Slashes and spaces only. */
  predicate Filler(s: string) {
    forall c <- s :: c == '/' || IsSpace(c)
  }

  lemma TrimSpaceBefore(c: char, s: string)
    requires IsSpace(c)
    ensures Trim([c] + s) == Trim(s)
  {
    var l, r := TrimParts(s);
    assert [c] + s == ([c] + l) + Trim(s) + r;
    TrimUnique([c] + l, Trim(s), r);
  }

  lemma TrimSpaceAfter(s: string, c: char)
    requires IsSpace(c)
    ensures Trim(s + [c]) == Trim(s)
  {
    var l, r := TrimParts(s);
    assert s + [c] == l + Trim(s) + (r + [c]);
    TrimUnique(l, Trim(s), r + [c]);
  }

  lemma TidyOne(s: string)
    requires '/' !in s
    ensures PathParts(s) == Kept(s)
  {
    assert Split(s, '/') == [s];
    TidySingle(s);
  }

  lemma SpaceBefore(c: char, s: string)
    requires IsSpace(c)
    ensures PathParts([c] + s) == PathParts(s)
  {
    hide PathParts, Trim;
    var i := Index(s, '/');
    var head := s[..i];
    TrimSpaceBefore(c, head);
    assert c != '/';
    TidyOne([c] + head);
    TidyOne(head);
    if i < |s| {
      var tail := s[i + 1..];
      assert s == head + "/" + tail;
      assert [c] + s == ([c] + head) + "/" + tail;
      PathPartsConcat([c] + head, tail);
      PathPartsConcat(head, tail);
    } else {
      assert head == s;
    }
  }

  lemma {:induction false} SpaceAfter(s: string, c: char)
    requires IsSpace(c)
    ensures PathParts(s + [c]) == PathParts(s)
    decreases |s|
  {
    var i := Index(s, '/');
    var head := s[..i];
    if i < |s| {
      var tail := s[i + 1..];
      assert s == head + "/" + tail;
      assert s + [c] == head + "/" + (tail + [c]);
      PathPartsConcat(head, tail + [c]);
      PathPartsConcat(head, tail);
      SpaceAfter(tail, c);
    } else {
      TrimSpaceAfter(s, c);
      TidyOne(s + [c]);
      TidyOne(s);
    }
  }

  lemma {:induction false} FillerBefore(l: string, s: string)
    requires Filler(l)
    ensures PathParts(l + s) == PathParts(s)
  {
    if l == "" {
      assert l + s == s;
    } else {
      hide PathParts, IsSpace;
      var rest := l[1..] + s;
      FillerBefore(l[1..], s);
      assert l[0] in l;
      if l[0] == '/' {
        assert l + s == "" + "/" + rest;
        PathPartsConcat("", rest);
        TidyOne("");
      } else {
        assert l + s == [l[0]] + rest;
        SpaceBefore(l[0], rest);
      }
    }
  }

  lemma {:induction false} FillerAfter(s: string, r: string)
    requires Filler(r)
    ensures PathParts(s + r) == PathParts(s)
  {
    if r == "" {
      assert s + r == s;
    } else {
      hide PathParts, IsSpace;
      var n := |r| - 1;
      var rest := s + r[..n];
      FillerAfter(s, r[..n]);
      assert r[n] in r;
      if r[n] == '/' {
        assert s + r == rest + "/" + "";
        PathPartsConcat(rest, "");
        TidyOne("");
      } else {
        assert s + r == rest + [r[n]];
        SpaceAfter(rest, r[n]);
      }
    }
  }

  // ----------------------------------------------------------- NormalizeResource

  function NormalizeResource(raw: string): Result<string> {
    var s := Trim(raw);
    if s == "" then Err else Assemble(PathParts(s))
  }

  function Assemble(all: seq<string>): Result<string> {
    var parts := if |all| >= 2 && all[0] == "api" && all[1] == "v1" then all[2..] else all;
    if |parts| != 2 || parts[0] == "" || parts[1] == "" then Err
    else Ok(parts[0] + "/" + parts[1])
  }

  /** The result as a function of the tidied segments alone: either `a/b`, other than
      `api/v1`, or `api/v1/a/b`. */
  function FromParts(parts: seq<string>): Result<string> {
    if |parts| == 2 && !(parts[0] == "api" && parts[1] == "v1") then Ok(parts[0] + "/" + parts[1])
    else if |parts| == 4 && parts[0] == "api" && parts[1] == "v1" then Ok(parts[2] + "/" + parts[3])
    else Err
  }

  lemma TrimKeepsParts(raw: string)
    ensures PathParts(Trim(raw)) == PathParts(raw)
  {
    var l, r := TrimParts(raw);
    FillerBefore(l, Trim(raw));
    FillerAfter(l + Trim(raw), r);
  }

  lemma NormalizeByParts(raw: string)
    ensures NormalizeResource(raw) == FromParts(PathParts(raw))
  {
    hide PathParts, Trimmed;
    TrimKeepsParts(raw);
    PartsAreSegments(raw);
    TidyOne("");
  }

  /** Extra slashes and spaces around and between the two segments never matter. */
  lemma PaddingInvisible(l: string, a: string, left: string, right: string, b: string, r: string)
    requires Filler(l) && Filler(left) && Filler(right) && Filler(r)
    ensures NormalizeResource(l + a + left + "/" + right + b + r) == NormalizeResource(a + "/" + b)
  {
    hide NormalizeResource, PathParts, FromParts;
    var x, y := l + a + left, right + b + r;
    assert l + a + left + "/" + right + b + r == x + "/" + y;
    PathPartsConcat(x, y);
    FillerAfter(l + a, left);
    FillerBefore(l, a);
    FillerAfter(right + b, r);
    FillerBefore(right, b);
    PathPartsConcat(a, b);
    NormalizeByParts(x + "/" + y);
    NormalizeByParts(a + "/" + b);
  }

  ghost predicate Canonical(s: string) {
    exists a, b :: IsSegment(a) && IsSegment(b) && s == a + "/" + b
  }

  lemma NormalizeIsCanonical(raw: string)
    requires NormalizeResource(raw).Ok?
    ensures Canonical(NormalizeResource(raw).value)
  {
    NormalizeByParts(raw);
    PartsAreSegments(raw);
    var parts := PathParts(raw);
    var k := if |parts| == 2 then 0 else 2;
    assert IsSegment(parts[k]) && IsSegment(parts[k + 1]);
  }

  lemma PartsOfCanonical(a: string, b: string)
    requires IsSegment(a) && IsSegment(b)
    ensures PathParts(a + "/" + b) == [a, b]
  {
    PathPartsConcat(a, b);
    PathPartsOfSegment(a);
    PathPartsOfSegment(b);
  }

  lemma CutSlash(a: string, b: string, a': string, b': string)
    requires '/' !in a && '/' !in a' && a + "/" + b == a' + "/" + b'
    ensures a == a' && b == b'
  {
    IndexOfConcat(a, '/', b);
    IndexOfConcat(a', '/', b');
    var s := a + "/" + b;
    assert s[..|a|] == a && s[|a| + 1..] == b;
    assert s[..|a|] == a' && s[|a| + 1..] == b';
  }

  lemma ApiV1Parts(a: string, b: string)
    requires '/' !in a
    ensures a + "/" + b == "api/v1" <==> a == "api" && b == "v1"
  {
    assert "api" + "/" + "v1" == "api/v1";
    if a + "/" + b == "api/v1" { CutSlash(a, b, "api", "v1"); }
  }

  /** Every canonical resource is a fixed point, except `api/v1`, which is rejected. */
  lemma CanonicalIsFixed(s: string)
    requires Canonical(s)
    ensures NormalizeResource(s) == if s == "api/v1" then Err else Ok(s)
  {
    var a, b :| IsSegment(a) && IsSegment(b) && s == a + "/" + b;
    ApiV1Parts(a, b);
    NormalizeByParts(s);
    PartsOfCanonical(a, b);
  }

  /** Normalisation is idempotent on exactly the outputs other than `api/v1`. */
  lemma NormalizeIdempotent(raw: string)
    requires NormalizeResource(raw).Ok?
    ensures var s := NormalizeResource(raw).value;
            NormalizeResource(s) == Ok(s) <==> s != "api/v1"
  {
    NormalizeIsCanonical(raw);
    CanonicalIsFixed(NormalizeResource(raw).value);
  }

  lemma PartsOfApiV1()
    ensures PathParts("api/v1") == ["api", "v1"]
  {
    assert IsSegment("api") && IsSegment("v1");
    ApiV1Parts("api", "v1");
    PartsOfCanonical("api", "v1");
  }

  lemma PartsOfApiPath(a: string, b: string)
    requires IsSegment(a) && IsSegment(b)
    ensures PathParts("api/v1" + "/" + (a + "/" + b)) == ["api", "v1", a, b]
  {
    PartsOfApiV1();
    PartsOfCanonical(a, b);
    PathPartsConcat("api/v1", a + "/" + b);
  }

  /** The API path of a resource normalises to the resource; with `a/b` equal to `api/v1`
      this is how the exception to idempotence arises. */
  lemma ApiPathNormalizes(a: string, b: string)
    requires IsSegment(a) && IsSegment(b)
    ensures NormalizeResource("api/v1" + "/" + (a + "/" + b)) == Ok(a + "/" + b)
  {
    PartsOfApiPath(a, b);
    NormalizeByParts("api/v1" + "/" + (a + "/" + b));
  }

  /** `ValidateResourcePattern`. */
  predicate ValidateResourcePattern(pattern: string) {
    var parts := SplitN(pattern, '/', 2);
    && |parts| == 2 && parts[0] != "" && parts[1] != ""
    && parts[0] != "*" && parts[0] != "_"
  }

  /** What the sync loop stores: a canonical pattern whose namespace is neither `*` nor `_`,
      and it keeps every canonical pattern of that kind. */
  lemma ValidPatternShape(a: string, b: string)
    requires IsSegment(a) && IsSegment(b)
    ensures ValidateResourcePattern(a + "/" + b) <==> a != "*" && a != "_"
  {
    SplitNConcat(a, '/', b, 2);
  }

  // ------------------------------------------------------------------- subjects

  const SERVICE_ACCOUNT := "system:serviceaccount:"

  function NormalizeSubject(raw: string): Result<string> {
    var s := Trim(raw);
    if s == "" then Err
    else if SERVICE_ACCOUNT <= s then FromUsername(s)
    else
      var parts := Split(s, '/');
      if |parts| != 2 || parts[0] == "" || parts[1] == "" then Err
      else Ok(parts[0] + "/" + parts[1])
  }

  function FromUsername(s: string): Result<string> {
    LastTwo(SplitN(s, ':', 4))
  }

  function LastTwo(parts: seq<string>): Result<string> {
    if |parts| != 4 || parts[2] == "" || parts[3] == "" then Err
    else Ok(parts[2] + "/" + parts[3])
  }

  /** The tail of `ValidateSAToken`: from a reviewed user name to (namespace, name). */
  function ServiceAccountOf(username: string): Result<(string, string)> {
    var subject := NormalizeSubject(username);
    if subject.Err? then Err
    else
      var parts := SplitN(subject.value, '/', 2);
      if |parts| != 2 || parts[0] == "" || parts[1] == "" then Err
      else Ok((parts[0], parts[1]))
  }

  function ShowServiceAccount(namespace: string, name: string): string {
    SERVICE_ACCOUNT + namespace + ":" + name
  }

  lemma EndsInk(p: string, t: string)
    requires p != "" && !IsSpace(p[|p| - 1]) && (t != "" ==> !IsSpace(t[|t| - 1]))
    ensures !IsSpace((p + t)[|p + t| - 1])
  {
    assert (p + t)[|p + t| - 1] == if t == "" then p[|p| - 1] else t[|t| - 1];
  }

  lemma TrimAfterPrefix(p: string, body: string)
    requires p != "" && Trimmed(p)
    ensures Trim(p + body) == p + TrimRight(body)
  {
    var t := TrimRight(body);
    var r := TrimRightParts(body);
    Assoc(p, t, r);
    assert (p + body)[0] == p[0];
    assert TrimLeft(p + body) == p + body;
    EndsInk(p, t);
    TrimRightBlank(p + t, r);
  }

  /** How the part after the prefix becomes a subject. */
  function SubjectOf(body: string): Result<string> {
    var parts := SplitN(body, ':', 2);
    if |parts| != 2 || parts[0] == "" || parts[1] == "" then Err
    else Ok(parts[0] + "/" + parts[1])
  }

  lemma SplitTwoFields(a: string, b: string, body: string)
    requires ':' !in a && ':' !in b
    ensures SplitN(a + ":" + (b + ":" + body), ':', 4) == [a] + ([b] + SplitN(body, ':', 2))
  {
    SplitNConcat(a, ':', b + ":" + body, 4);
    SplitNConcat(b, ':', body, 3);
  }

  lemma FromTwoFields(a: string, b: string, body: string)
    requires ':' !in a && ':' !in b
    ensures FromUsername(a + ":" + (b + ":" + body)) == SubjectOf(body)
  {
    hide SplitN;
    SplitTwoFields(a, b, body);
  }

  lemma PrefixIsTwoFields(body: string)
    ensures SERVICE_ACCOUNT + body == "system" + ":" + ("serviceaccount" + ":" + body)
  {}

  lemma ReadSubject(body: string)
    ensures NormalizeSubject(SERVICE_ACCOUNT + body) == SubjectOf(TrimRight(body))
  {
    hide FromUsername, SubjectOf, TrimRight, Split, Trim;
    var u := TrimRight(body);
    TrimAfterPrefix(SERVICE_ACCOUNT, body);
    PrefixIsTwoFields(u);
    FromTwoFields("system", "serviceaccount", u);
  }

  lemma TrimBody(namespace: string, name: string)
    ensures TrimRight(namespace + ":" + name) == namespace + ":" + TrimRight(name)
  {
    var t := TrimRight(name);
    var r := TrimRightParts(name);
    Assoc(namespace + ":", t, r);
    EndsInk(namespace + ":", t);
    TrimRightBlank(namespace + ":" + t, r);
  }

  /** A colon in the namespace is lost: what is read back has none. */
  lemma ColonIsLost(body: string)
    requires SubjectOf(body).Ok?
    ensures var subject := SubjectOf(body).value;
            ':' !in subject[..Index(subject, '/')]
  {
    var i := Index(body, ':');
    var x, y := body[..i], body[i + 1..];
    var subject := x + "/" + y;
    assert SubjectOf(body).value == subject;
    var j := Index(subject, '/');
    assert subject[|x|] == '/';
    assert subject[..j] <= x;
  }

  /** Identity round trip, with exactly the names it holds for. */
  lemma SubjectRoundTrip(namespace: string, name: string)
    ensures ServiceAccountOf(ShowServiceAccount(namespace, name)) == Ok((namespace, name)) <==>
            && namespace != "" && ':' !in namespace && '/' !in namespace
            && name != "" && !IsSpace(name[|name| - 1])
  {
    var t := TrimRight(name);
    var body := namespace + ":" + t;
    assert ShowServiceAccount(namespace, name) == SERVICE_ACCOUNT + (namespace + ":" + name);
    ReadSubject(namespace + ":" + name);
    TrimBody(namespace, name);
    if ':' in namespace {
      if SubjectOf(body).Ok? {
        ColonIsLost(body);
      }
    } else {
      SplitNConcat(namespace, ':', t, 2);
      if '/' !in namespace {
        SplitNConcat(namespace, '/', t, 2);
      }
    }
  }
}
