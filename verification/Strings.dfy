/** String helpers: the parts of Go's `strings` package that the modelled code
    relies on, with the facts about them that the later proofs need. */
module Strings {

  datatype Option<+T> = None | Some(value: T)

  /** A Go `(T, error)` pair in which only the presence of the error matters. */
  datatype Result<+T> = Ok(value: T) | Err

  lemma Assoc<T>(a: seq<T>, b: seq<T>, c: seq<T>)
    ensures (a + b) + c == a + (b + c)
  {}

  /** Position of the first `c` in `s`, or `|s|` when there is none. */
  function Index(s: string, c: char): (i: nat)
    ensures i <= |s|
    ensures c !in s[..i]
    ensures i < |s| ==> s[i] == c
    ensures i == |s| <==> c !in s
  {
    if s == "" then 0
    else if s[0] == c then 0
    else
      var i := 1 + Index(s[1..], c);
      assert s[..i] == [s[0]] + s[1..][..i - 1];
      i
  }

  lemma CutAt(s: string, c: char)
    requires c in s
    ensures s == s[..Index(s, c)] + [c] + s[Index(s, c) + 1..]
  {}

  lemma IndexOfConcat(a: string, c: char, b: string)
    requires c !in a
    ensures Index(a + [c] + b, c) == |a|
  {
    var s := a + [c] + b;
    var i := Index(s, c);
    assert s[|a|] == c;
  }

  /** `strings.SplitN(s, sep, n)` for `n >= 1`. */
  function SplitN(s: string, sep: char, n: nat): (parts: seq<string>)
    requires n >= 1
    ensures 1 <= |parts| <= n
    decreases n
  {
    var i := Index(s, sep);
    if n == 1 || i == |s| then [s] else [s[..i]] + SplitN(s[i + 1..], sep, n - 1)
  }

  lemma SplitNConcat(a: string, sep: char, b: string, n: nat)
    requires sep !in a && n >= 2
    ensures SplitN(a + [sep] + b, sep, n) == [a] + SplitN(b, sep, n - 1)
  {
    var s := a + [sep] + b;
    IndexOfConcat(a, sep, b);
    assert s[..|a|] == a;
    assert s[|a| + 1..] == b;
  }

  /** `strings.Split(s, sep)`. */
  function Split(s: string, sep: char): (parts: seq<string>)
    ensures |parts| >= 1
    decreases |s|
  {
    var i := Index(s, sep);
    if i == |s| then [s] else [s[..i]] + Split(s[i + 1..], sep)
  }

  lemma SplitHead(head: string, sep: char, rest: string)
    requires sep !in head
    ensures Split(head + [sep] + rest, sep) == [head] + Split(rest, sep)
  {
    IndexOfConcat(head, sep, rest);
    var s := head + [sep] + rest;
    assert s[..|head|] == head && s[|head| + 1..] == rest;
  }

  lemma {:induction false} SplitConcat(a: string, sep: char, b: string)
    ensures Split(a + [sep] + b, sep) == Split(a, sep) + Split(b, sep)
    decreases |a|
  {
    var i := Index(a, sep);
    if i == |a| {
      SplitHead(a, sep, b);
    } else {
      var head, tail := a[..i], a[i + 1..];
      CutAt(a, sep);
      Assoc(head + [sep], tail, [sep]);
      Assoc(head + [sep], tail + [sep], b);
      SplitHead(head, sep, tail + [sep] + b);
      SplitConcat(tail, sep, b);
      Assoc([head], Split(tail, sep), Split(b, sep));
    }
  }

  /** `unicode.IsSpace`. */
  predicate IsSpace(c: char) {
    || '\t' <= c <= '\r'
    || c == ' '
    || c == '\U{85}'
    || c == '\U{A0}'
    || c == '\U{1680}'
    || '\U{2000}' <= c <= '\U{200A}'
    || c == '\U{2028}' || c == '\U{2029}' || c == '\U{202F}' || c == '\U{205F}' || c == '\U{3000}'
  }

  predicate Blank(s: string) {
    forall c <- s :: IsSpace(c)
  }

  /** No space at either end. */
  predicate Trimmed(s: string) {
    s != "" ==> !IsSpace(s[0]) && !IsSpace(s[|s| - 1])
  }

  function TrimLeft(s: string): (t: string)
    ensures t == "" || !IsSpace(t[0])
  {
    if s != "" && IsSpace(s[0]) then TrimLeft(s[1..]) else s
  }

  function TrimRight(s: string): (t: string)
    ensures t == "" || !IsSpace(t[|t| - 1])
  {
    if s != "" && IsSpace(s[|s| - 1]) then TrimRight(s[..|s| - 1]) else s
  }

  /** `strings.TrimSpace`. */
  function Trim(s: string): string {
    TrimRight(TrimLeft(s))
  }

  lemma {:induction false} TrimLeftParts(s: string) returns (l: string)
    ensures Blank(l) && s == l + TrimLeft(s)
  {
    if s != "" && IsSpace(s[0]) {
      l := TrimLeftParts(s[1..]);
      l := [s[0]] + l;
    } else {
      l := "";
    }
  }

  lemma {:induction false} TrimRightParts(s: string) returns (r: string)
    ensures Blank(r) && s == TrimRight(s) + r
  {
    if s != "" && IsSpace(s[|s| - 1]) {
      r := TrimRightParts(s[..|s| - 1]);
      r := r + [s[|s| - 1]];
    } else {
      r := "";
    }
  }

  /** What `Trim` removes: a blank prefix and a blank suffix. */
  lemma TrimParts(s: string) returns (l: string, r: string)
    ensures Blank(l) && Blank(r) && s == l + Trim(s) + r
    ensures Trimmed(Trim(s))
  {
    l := TrimLeftParts(s);
    var t := TrimLeft(s);
    r := TrimRightParts(t);
    assert Trim(s) != "" ==> Trim(s)[0] == t[0];
  }

  lemma {:induction false} TrimLeftBlank(l: string, x: string)
    requires Blank(l) && (x != "" ==> !IsSpace(x[0]))
    ensures TrimLeft(l + x) == x
  {
    if l == "" {
      assert l + x == x;
    } else {
      assert (l + x)[0] == l[0] && l[0] in l && IsSpace(l[0]);
      assert Blank(l[1..]);
      TrimLeftBlank(l[1..], x);
      assert (l + x)[1..] == l[1..] + x;
    }
  }

  lemma {:induction false} TrimRightBlank(x: string, r: string)
    requires Blank(r) && (x != "" ==> !IsSpace(x[|x| - 1]))
    ensures TrimRight(x + r) == x
  {
    if r == "" {
      assert x + r == x;
    } else {
      TrimRightBlank(x, r[..|r| - 1]);
      assert (x + r)[..|x + r| - 1] == x + r[..|r| - 1];
    }
  }

  /** ... and nothing else: the trimmed middle of any such cut is the answer. */
  lemma TrimUnique(l: string, m: string, r: string)
    requires Blank(l) && Blank(r) && Trimmed(m)
    ensures Trim(l + m + r) == m
  {
    if m == "" {
      assert l + m + r == (l + r) + "";
      TrimLeftBlank(l + r, "");
    } else {
      assert l + m + r == l + (m + r);
      TrimLeftBlank(l, m + r);
      TrimRightBlank(m, r);
    }
  }

  lemma TrimOfTrimmed(s: string)
    requires Trimmed(s)
    ensures Trim(s) == s
  {
    TrimUnique("", s, "");
    assert "" + s + "" == s;
  }
}
