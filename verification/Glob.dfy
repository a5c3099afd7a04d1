/** The two-segment glob language of permission patterns
    (internal/authz/permissions.go, openapi/openapi.yaml "Resource Patterns"). */
module Glob {
  import opened Strings

  /** One segment, as `path.Match` decides it for patterns made of literals and `*`:
      a star stands for any run of characters other than `/`. */
  predicate Match(p: string, s: string)
    decreases |p| + |s|
  {
    if p == "" then s == ""
    else if p[0] == '*' then Match(p[1..], s) || (s != "" && s[0] != '/' && Match(p, s[1..]))
    else s != "" && s[0] == p[0] && Match(p[1..], s[1..])
  }

  // ---------------------------------------------------------------- meaning

  function Stars(p: string): nat {
    if p == "" then 0 else (if p[0] == '*' then 1 else 0) + Stars(p[1..])
  }

  /** The pattern with its stars replaced, left to right, by `fills`. */
  function Fill(p: string, fills: seq<string>): string
    requires |fills| == Stars(p)
    decreases |p|
  {
    if p == "" then ""
    else if p[0] == '*' then fills[0] + Fill(p[1..], fills[1..])
    else [p[0]] + Fill(p[1..], fills)
  }

  ghost predicate Fills(p: string, fills: seq<string>, s: string) {
    |fills| == Stars(p) && (forall f <- fills :: '/' !in f) && Fill(p, fills) == s
  }

  /** The language of a segment pattern, without reference to any matching procedure. */
  ghost predicate InLanguage(p: string, s: string) {
    exists fills :: Fills(p, fills, s)
  }

  lemma {:induction false} MatchIsSound(p: string, s: string)
    requires Match(p, s)
    ensures InLanguage(p, s)
    decreases |p| + |s|
  {
    if p == "" {
      assert Fills(p, [], s);
    } else if p[0] == '*' {
      if Match(p[1..], s) {
        MatchIsSound(p[1..], s);
        var fills :| Fills(p[1..], fills, s);
        assert ([""] + fills)[1..] == fills;
        assert Fills(p, [""] + fills, s);
      } else {
        MatchIsSound(p, s[1..]);
        var fills :| Fills(p, fills, s[1..]);
        var more := [[s[0]] + fills[0]] + fills[1..];
        assert more[1..] == fills[1..];
        assert Fill(p, more) == [s[0]] + s[1..] == s;
        forall f | f in more ensures '/' !in f {
          if f != more[0] { assert f in fills[1..]; assert f in fills; }
        }
        assert Fills(p, more, s);
      }
    } else {
      MatchIsSound(p[1..], s[1..]);
      var fills :| Fills(p[1..], fills, s[1..]);
      assert Fills(p, fills, s);
    }
  }

  lemma {:induction false} StarAbsorbs(p: string, f: string, s: string)
    requires p != "" && p[0] == '*' && '/' !in f && Match(p[1..], s)
    ensures Match(p, f + s)
    decreases |f|
  {
    if f == "" {
      assert f + s == s;
    } else {
      StarAbsorbs(p, f[1..], s);
      assert (f + s)[1..] == f[1..] + s;
    }
  }

  lemma {:induction false} MatchIsComplete(p: string, fills: seq<string>, s: string)
    requires Fills(p, fills, s)
    ensures Match(p, s)
    decreases |p|
  {
    if p == "" {
    } else if p[0] == '*' {
      MatchIsComplete(p[1..], fills[1..], Fill(p[1..], fills[1..]));
      StarAbsorbs(p, fills[0], Fill(p[1..], fills[1..]));
    } else {
      MatchIsComplete(p[1..], fills, Fill(p[1..], fills));
      assert s[1..] == Fill(p[1..], fills);
    }
  }

  /** The matcher decides exactly the pattern's language. */
  lemma MatchDecidesLanguage(p: string, s: string)
    ensures Match(p, s) <==> InLanguage(p, s)
  {
    if Match(p, s) {
      MatchIsSound(p, s);
    }
    if InLanguage(p, s) {
      var fills :| Fills(p, fills, s);
      MatchIsComplete(p, fills, s);
    }
  }

  // ------------------------------------------------- inclusion by matching text

  /** If `p` matches the text of pattern `q`, everything `q` matches, `p` matches. */
  lemma {:induction false} SegmentInclusion(p: string, q: string, s: string)
    requires Match(p, q) && Match(q, s)
    ensures Match(p, s)
    decreases |p| + |q| + |s|
  {
    if p == "" {
    } else if p[0] != '*' {
      SegmentInclusion(p[1..], q[1..], s[1..]);
    } else if Match(p[1..], q) {
      SegmentInclusion(p[1..], q, s);
    } else if q[0] != '*' {
      SegmentInclusion(p, q[1..], s[1..]);
    } else if Match(q[1..], s) {
      SegmentInclusion(p, q[1..], s);
    } else {
      SegmentInclusion(p, q, s[1..]);
    }
  }

  /** A generic instance of `q`: every star becomes the single character `x`. */
  function Generic(q: string, x: char): (s: string)
    ensures |s| == |q|
    ensures forall i :: 0 <= i < |q| ==> s[i] == if q[i] == '*' then x else q[i]
  {
    if q == "" then "" else [if q[0] == '*' then x else q[0]] + Generic(q[1..], x)
  }

  lemma {:induction false} GenericIsInstance(q: string, x: char)
    requires x != '/'
    ensures Match(q, Generic(q, x))
  {
    if q != "" {
      GenericIsInstance(q[1..], x);
      var s := Generic(q, x);
      assert s[1..] == Generic(q[1..], x);
      if q[0] == '*' {
        assert Match(q[1..], s[1..]);
        assert Match(q, s[1..]);
      }
    }
  }

  /** A pattern that accepts the generic instance, in a character it does not mention,
      accepts the text of the pattern. */
  lemma {:induction false} GenericIsEnough(p: string, q: string, x: char)
    requires x != '/' && x != '*' && x !in p && Match(p, Generic(q, x))
    ensures Match(p, q)
    decreases |p| + |q|
  {
    var s := Generic(q, x);
    if p == "" {
    } else if p[0] != '*' {
      assert q[0] == p[0];
      assert s[1..] == Generic(q[1..], x);
      GenericIsEnough(p[1..], q[1..], x);
    } else if Match(p[1..], s) {
      GenericIsEnough(p[1..], q, x);
    } else {
      assert s[1..] == Generic(q[1..], x);
      GenericIsEnough(p, q[1..], x);
    }
  }

  /** A segment of stars only matches exactly the slash-free strings. */
  lemma {:induction false} OnlyStars(p: string, s: string)
    requires Match(p, "*")
    ensures Match(p, s) <==> '/' !in s
  {
    if '/' !in s {
      StarMatches(s);
      SegmentInclusion(p, "*", s);
    } else {
      StarsReject(p, s);
    }
  }

  lemma {:induction false} StarMatches(s: string)
    requires '/' !in s
    ensures Match("*", s)
  {
    assert Match("*"[1..], "");
    StarAbsorbs("*", s, "");
    assert s + "" == s;
  }

  lemma {:induction false} StarsReject(p: string, s: string)
    requires Match(p, "*") || Match(p, "")
    requires '/' in s
    ensures !Match(p, s)
    decreases |p| + |s|
  {
    if p != "" {
      assert Match("", "") && !Match("", "*");
      assert p[0] == '*';
      assert "*"[1..] == "";
      assert Match(p[1..], "*") || Match(p[1..], "") || Match(p, "");
      StarsRejectTail(p);
      StarsReject(p[1..], s);
      if s[0] != '/' {
        StarsReject(p, s[1..]);
      }
    }
  }

  lemma {:induction false} StarsRejectTail(p: string)
    requires p != "" && p[0] == '*' && (Match(p, "*") || Match(p, ""))
    ensures Match(p[1..], "*") || Match(p[1..], "")
  {
    if Match(p, "*") && !Match(p[1..], "*") {
      assert Match(p, "*"[1..]);
      assert "*"[1..] == "";
    }
  }

  // ------------------------------------------------------- two-segment patterns

  /** `splitSlash`: the text before and after the first slash. */
  function SplitSlash(s: string): (parts: (string, string))
    ensures '/' !in parts.0
    ensures '/' in s ==> s == parts.0 + "/" + parts.1
    ensures '/' !in s ==> parts == (s, "")
  {
    var i := Index(s, '/');
    if i == |s| then (s, "") else
      assert s == s[..i] + "/" + s[i + 1..];
      (s[..i], s[i + 1..])
  }

  lemma SplitSlashConcat(a: string, b: string)
    requires '/' !in a
    ensures SplitSlash(a + "/" + b) == (a, b)
  {
    IndexOfConcat(a, '/', b);
    var s := a + "/" + b;
    assert s[..|a|] == a && s[|a| + 1..] == b;
  }

  const ANYTHING := "*/*"

  /** `matchesPattern`. */
  predicate MatchesPattern(resource: string, pattern: string) {
    if pattern == ANYTHING then true
    else
      var p, r := SplitSlash(pattern), SplitSlash(resource);
      Match(p.0, r.0) && Match(p.1, r.1)
  }

  /** The language of a two-segment pattern: `*` / `*` has every resource, any other those whose
      two parts are in the languages of its two parts. */
  ghost predicate InPatternLanguage(pattern: string, resource: string) {
    || pattern == "*/*"
    || (&& InLanguage(SplitSlash(pattern).0, SplitSlash(resource).0)
        && InLanguage(SplitSlash(pattern).1, SplitSlash(resource).1))
  }

  /** Matching decides exactly the pattern's language. */
  lemma PatternDecidesLanguage(resource: string, pattern: string)
    ensures MatchesPattern(resource, pattern) <==> InPatternLanguage(pattern, resource)
  {
    MatchDecidesLanguage(SplitSlash(pattern).0, SplitSlash(resource).0);
    MatchDecidesLanguage(SplitSlash(pattern).1, SplitSlash(resource).1);
  }

  lemma SplitAnything()
    ensures SplitSlash(ANYTHING) == ("*", "*")
  {
    SplitSlashConcat("*", "*");
    assert "*" + "/" + "*" == ANYTHING;
  }

  /** The shortcut agrees with segment-wise matching exactly when the name part has no slash. */
  lemma ShortcutAgrees(resource: string)
    ensures (Match(SplitSlash(ANYTHING).0, SplitSlash(resource).0) &&
             Match(SplitSlash(ANYTHING).1, SplitSlash(resource).1))
            <==> '/' !in SplitSlash(resource).1
  {
    SplitAnything();
    var r := SplitSlash(resource);
    StarMatches(r.0);
    assert "*"[1..] == "";
    assert Match("*", "*") by { StarMatches("*"); }
    OnlyStars("*", r.1);
  }

  /** Where the shortcut of a delegated pattern reaches past its cover: names with a slash. */
  predicate ShortcutGap(p: string, q: string, resource: string) {
    q == ANYTHING && p != ANYTHING && '/' in SplitSlash(resource).1
  }

  /** Delegation's key fact: if held pattern `p` matches the text of `q`, then on every
      resource `q` matches, `p` matches too, except exactly in the shortcut gap. */
  lemma PatternInclusion(p: string, q: string, resource: string)
    requires MatchesPattern(q, p) && MatchesPattern(resource, q)
    ensures MatchesPattern(resource, p) <==> !ShortcutGap(p, q, resource)
  {
    if p != ANYTHING {
      var ps, qs, rs := SplitSlash(p), SplitSlash(q), SplitSlash(resource);
      if q == ANYTHING {
        SplitAnything();
        OnlyStars(ps.0, rs.0);
        OnlyStars(ps.1, rs.1);
      } else {
        SegmentInclusion(ps.0, qs.0, rs.0);
        SegmentInclusion(ps.1, qs.1, rs.1);
      }
    }
  }

  // The gap is real: a namespace of two stars and a name of one cover the text of the shortcut,
  // but the shortcut reaches a name with a slash and they do not.
  lemma ShortcutGapExists()
    ensures var p := "**" + "/" + "*"; var r := "a" + "/" + "b/c";
            MatchesPattern(ANYTHING, p) && MatchesPattern(r, ANYTHING) && !MatchesPattern(r, p)
  {
    var p, r := "**" + "/" + "*", "a" + "/" + "b/c";
    SplitSlashConcat("**", "*");
    SplitSlashConcat("a", "b/c");
    SplitAnything();
    assert Match("**", "*") && Match("*", "*") by { StarMatches("*"); assert "**"[1..] == "*"; }
    assert p != ANYTHING by { assert |p| == 4; }
    assert "b/c"[1] == '/';
    PatternInclusion(p, ANYTHING, r);
  }

  /** Stars do not help with slashes: a name of slashes is no longer than a segment it matches. */
  lemma {:induction false} SlashesNeedText(p: string, s: string)
    requires Match(p, s) && forall c <- s :: c == '/'
    ensures |s| <= |p|
    decreases |p| + |s|
  {
    if p != "" && s != "" {
      if p[0] == '*' {
        assert s[0] in s;
        SlashesNeedText(p[1..], s);
      } else {
        assert forall c <- s[1..] :: c in s;
        SlashesNeedText(p[1..], s[1..]);
      }
    }
  }

  /** A resource in whose name there are `n` slashes and nothing else. */
  function Slashes(n: nat): string {
    "a" + "/" + seq(n, _ => '/')
  }

  /** Only the shortcut matches a name of more slashes than the pattern is long. */
  lemma SlashesOutOfReach(p: string, n: nat)
    requires p != ANYTHING && |p| < n
    ensures !MatchesPattern(Slashes(n), p)
  {
    var s := seq(n, _ => '/');
    SplitSlashConcat("a", s);
    if Match(SplitSlash(p).1, s) { SlashesNeedText(SplitSlash(p).1, s); }
  }

  /** Text matching decides inclusion of patterns: `x` is any character `p` does not use. */
  lemma TextMatchDecidesInclusion(p: string, q: string, x: char)
    requires x != '/' && x != '*' && x !in p
    ensures MatchesPattern(q, p) <==>
            forall r :: MatchesPattern(r, q) && !ShortcutGap(p, q, r) ==> MatchesPattern(r, p)
  {
    if MatchesPattern(q, p) {
      forall r | MatchesPattern(r, q) && !ShortcutGap(p, q, r) ensures MatchesPattern(r, p) {
        PatternInclusion(p, q, r);
      }
    }
    if forall r :: MatchesPattern(r, q) && !ShortcutGap(p, q, r) ==> MatchesPattern(r, p) {
      GenericIsPlain(q, x);
      assert MatchesPattern(Generic(q, x), q) && !ShortcutGap(p, q, Generic(q, x));
      GenericMatchIsEnough(p, q, x);
    }
  }

  /** A pattern matches its generic instance, which is never in the shortcut gap. */
  lemma GenericIsPlain(q: string, x: char)
    requires x != '/'
    ensures MatchesPattern(Generic(q, x), q)
    ensures q == ANYTHING ==> '/' !in SplitSlash(Generic(q, x)).1
  {
    var qs := SplitSlash(q);
    GenericSplit(q, x);
    GenericIsInstance(qs.0, x);
    GenericIsInstance(qs.1, x);
    if q == ANYTHING { SplitAnything(); }
  }

  /** ... and another that matches the generic instance matches the text. */
  lemma GenericMatchIsEnough(p: string, q: string, x: char)
    requires x != '/' && x != '*' && x !in p && MatchesPattern(Generic(q, x), p)
    ensures MatchesPattern(q, p)
  {
    if p != ANYTHING {
      var ps, qs := SplitSlash(p), SplitSlash(q);
      GenericSplit(q, x);
      assert x !in ps.0 && x !in ps.1;
      GenericIsEnough(ps.0, qs.0, x);
      GenericIsEnough(ps.1, qs.1, x);
    }
  }

  lemma GenericKeepsSlashes(q: string, x: char)
    requires x != '/' && '/' !in q
    ensures '/' !in Generic(q, x)
  {
    var g := Generic(q, x);
    forall i | 0 <= i < |g| ensures g[i] != '/' { assert q[i] in q; }
  }

  lemma GenericConcat(a: string, b: string, x: char)
    ensures Generic(a + "/" + b, x) == Generic(a, x) + "/" + Generic(b, x)
  {}

  lemma GenericSplit(q: string, x: char)
    requires x != '/'
    ensures SplitSlash(Generic(q, x)) == (Generic(SplitSlash(q).0, x), Generic(SplitSlash(q).1, x))
  {
    hide Generic, Index;
    var qs := SplitSlash(q);
    if '/' in q {
      GenericKeepsSlashes(qs.0, x);
      GenericConcat(qs.0, qs.1, x);
      SplitSlashConcat(Generic(qs.0, x), Generic(qs.1, x));
    } else {
      GenericKeepsSlashes(q, x);
    }
  }
}
