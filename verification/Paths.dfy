/** Paths: the tokeniser, its inverse, and parent paths. */
module Paths {
  import opened Bytes

  const SLASH: byte := 47
  const ROOT: bytes := [SLASH]

  predicate IsName(t: bytes) {
    t != [] && SLASH !in t
  }

  predicate Names(ts: seq<bytes>) {
    forall k | 0 <= k < |ts| :: IsName(ts[k])
  }

  /** "/" t1 "/" t2 ... */
  function Join(ts: seq<bytes>): (r: bytes)
    ensures ts != [] ==> r != [] && r[0] == SLASH
  {
    if ts == [] then [] else ROOT + ts[0] + Join(ts[1..])
  }

  /** The path with these tokens; no tokens is the root. */
  function PathOf(ts: seq<bytes>): (r: bytes)
    ensures r != [] && r[0] == SLASH
  {
    if ts == [] then ROOT else Join(ts)
  }

  /** The length of the longest slash-free prefix. */
  function Span(p: bytes): (n: nat)
    ensures n <= |p|
    ensures SLASH !in p[..n]
    ensures n < |p| ==> p[n] == SLASH
  {
    if p == [] || p[0] == SLASH then 0
    else
      assert forall k | 0 <= k < Span(p[1..]) :: p[1..][..Span(p[1..])][k] == p[k + 1];
      1 + Span(p[1..])
  }

  function Tokens(p: bytes): (ts: seq<bytes>)
    ensures Names(ts)
    decreases |p|
  {
    if p == [] then []
    else if p[0] == SLASH then Tokens(p[1..])
    else [p[..Span(p)]] + Tokens(p[Span(p)..])
  }

  /** A slash separates: what is before it and what is after it are split on their own. Together
      with the next lemma this determines the tokens of every path. */
  lemma {:induction false} TokensAtSlash(a: bytes, b: bytes)
    ensures Tokens(a + ROOT + b) == Tokens(a) + Tokens(b)
    decreases |a|
  {
    var p := a + ROOT + b;
    if a == [] {
      assert p[1..] == b;
    } else if a[0] == SLASH {
      TokensAtSlash(a[1..], b);
      assert p[1..] == a[1..] + ROOT + b;
    } else {
      var n := Span(a);
      assert p[..n] == a[..n] && p[n] == SLASH;
      SpanAt(p, n);
      TokensAtSlash(a[n..], b);
      assert p[n..] == a[n..] + ROOT + b;
      assert [p[..n]] + (Tokens(a[n..]) + Tokens(b)) == [p[..n]] + Tokens(a[n..]) + Tokens(b);
    }
  }

  lemma TokensOfName(t: bytes)
    requires SLASH !in t
    ensures Tokens(t) == if t == [] then [] else [t]
  {
    if t != [] {
      SpanAt(t, |t|);
      assert t[..|t|] == t;
    }
  }

  /** A path without tokens is all slashes. */
  lemma {:induction false} NoTokens(p: bytes)
    ensures Tokens(p) == [] <==> forall k :: 0 <= k < |p| ==> p[k] == SLASH
    decreases |p|
  {
    if p != [] {
      if p[0] == SLASH {
        NoTokens(p[1..]);
        assert forall k :: 0 <= k < |p| - 1 ==> p[k + 1] == p[1..][k];
        assert forall k :: 1 <= k < |p| ==> p[k] == p[1..][k - 1];
      } else {
        assert Tokens(p) != [];
      }
    }
  }

  lemma SpanAt(p: bytes, n: nat)
    requires n <= |p| && SLASH !in p[..n] && (n < |p| ==> p[n] == SLASH)
    ensures Span(p) == n
  {
    TakeHas(p, n);
    TakeHas(p, Span(p));
  }

  /** A name followed by the end or a slash is the first token. */
  lemma TokensCons(t: bytes, rest: bytes)
    requires IsName(t) && (rest != [] ==> rest[0] == SLASH)
    ensures Tokens(ROOT + t + rest) == [t] + Tokens(rest)
  {
    var q := t + rest;
    assert (ROOT + t + rest)[1..] == q;
    assert q[..|t|] == t && q[|t|..] == rest;
    SpanAt(q, |t|);
    assert q[0] == t[0];
  }

  /** Splitting a joined path gives the tokens back. */
  lemma {:induction false} TokensOfJoin(ts: seq<bytes>)
    requires Names(ts)
    ensures Tokens(Join(ts)) == ts
  {
    if ts != [] {
      TokensOfJoin(ts[1..]);
      TokensCons(ts[0], Join(ts[1..]));
      assert ts == [ts[0]] + ts[1..];
    }
  }

  lemma TokensOfPath(ts: seq<bytes>)
    requires Names(ts)
    ensures Tokens(PathOf(ts)) == ts
  {
    TokensOfJoin(ts);
    assert Tokens(ROOT) == Tokens(ROOT[1..]);
  }

  predicate NoDoubleSlash(p: bytes) {
    forall k | 0 <= k < |p| - 1 :: !(p[k] == SLASH && p[k + 1] == SLASH)
  }

  /** Canonical paths: no empty components, no trailing slash. */
  predicate Canonical(p: bytes) {
    p != [] && p[0] == SLASH && (|p| > 1 ==> p[|p| - 1] != SLASH && NoDoubleSlash(p))
  }

  lemma NoDoubleSlashSuffix(p: bytes, n: nat)
    requires n <= |p| && NoDoubleSlash(p)
    ensures NoDoubleSlash(p[n..])
  {
    var r := p[n..];
    forall k | 0 <= k < |r| - 1 ensures !(r[k] == SLASH && r[k + 1] == SLASH) {
      assert r[k] == p[n + k] && r[k + 1] == p[n + k + 1];
    }
  }

  /** A path that starts with a slash and a name. */
  lemma TokensHead(p: bytes) returns (n: nat)
    requires |p| > 1 && p[0] == SLASH && p[1] != SLASH
    ensures 0 < n < |p| && (n + 1 < |p| ==> p[n + 1] == SLASH)
    ensures Tokens(p) == [p[1..n + 1]] + Tokens(p[n + 1..])
  {
    var q := p[1..];
    n := Span(q);
    assert q[0] == p[1];
    assert q[..n] == p[1..n + 1] && q[n..] == p[n + 1..];
    assert n < |q| ==> q[n] == p[n + 1];
  }

  lemma SlashSplit(p: bytes, n: nat)
    requires 0 <= n < |p| && p[0] == SLASH
    ensures p == ROOT + p[1..n + 1] + p[n + 1..]
  {
  }

  lemma {:induction false} JoinOfTokens(p: bytes)
    requires |p| > 1 && Canonical(p)
    ensures Join(Tokens(p)) == p
    decreases |p|
  {
    var n := TokensHead(p);
    var r := p[n + 1..];
    SlashSplit(p, n);
    NoDoubleSlashSuffix(p, n + 1);
    if r == [] {
      assert Join(Tokens(p)) == ROOT + p[1..n + 1] + Join([]);
    } else {
      assert r[0] == p[n + 1] && r[|r| - 1] == p[|p| - 1];
      JoinOfTokens(r);
    }
  }

  /** A joined list of names has no empty component and no trailing slash. */
  lemma {:induction false} JoinIsCanonical(ts: seq<bytes>)
    requires Names(ts) && ts != []
    ensures Canonical(Join(ts)) && |Join(ts)| > 1
  {
    var rest := Join(ts[1..]);
    var p := ROOT + ts[0] + rest;
    assert ts[0][0] != SLASH && p[1] == ts[0][0];
    if ts[1..] != [] {
      JoinIsCanonical(ts[1..]);
    }
    assert NoDoubleSlash(rest);
    forall k | 0 <= k < |p| - 1 ensures !(p[k] == SLASH && p[k + 1] == SLASH) {
      if 1 <= k <= |ts[0]| {
        assert p[k] == ts[0][k - 1];
      } else if k > |ts[0]| {
        assert p[k] == rest[k - 1 - |ts[0]|] && p[k + 1] == rest[k - |ts[0]|];
      }
    }
    if rest == [] {
      assert p[|p| - 1] == ts[0][|ts[0]| - 1];
    } else {
      assert p[|p| - 1] == rest[|rest| - 1];
    }
  }

  /** Joining the tokens of a path is idempotent, and gives the path exactly when it is canonical. */
  lemma JoinTokensCanonical(p: bytes)
    ensures PathOf(Tokens(PathOf(Tokens(p)))) == PathOf(Tokens(p))
    ensures PathOf(Tokens(p)) == p <==> Canonical(p)
  {
    TokensOfPath(Tokens(p));
    if Tokens(p) != [] {
      JoinIsCanonical(Tokens(p));
    }
    if Canonical(p) {
      if |p| == 1 {
        assert p == ROOT && Tokens(p) == Tokens(p[1..]) == [];
      } else {
        JoinOfTokens(p);
      }
    }
  }

  /** Distinct token lists have distinct paths. */
  lemma PathInjective(a: seq<bytes>, b: seq<bytes>)
    requires Names(a) && Names(b) && PathOf(a) == PathOf(b)
    ensures a == b
  {
    TokensOfPath(a);
    TokensOfPath(b);
  }

  lemma {:induction false} JoinConcat(a: seq<bytes>, b: seq<bytes>)
    ensures Join(a + b) == Join(a) + Join(b)
  {
    if a == [] {
      assert a + b == b;
    } else {
      JoinConcat(a[1..], b);
      assert (a + b)[1..] == a[1..] + b;
      Assoc(ROOT + a[0], Join(a[1..]), Join(b));
    }
  }

  /** Splitting a joined list followed by more path. */
  lemma {:induction false} TokensOfJoinThen(ts: seq<bytes>, rest: bytes)
    requires Names(ts) && (rest != [] ==> rest[0] == SLASH)
    ensures Tokens(Join(ts) + rest) == ts + Tokens(rest)
  {
    if ts == [] {
      assert Join(ts) + rest == rest;
    } else {
      TokensOfJoinThen(ts[1..], rest);
      var tail := Join(ts[1..]) + rest;
      Assoc(ROOT + ts[0], Join(ts[1..]), rest);
      TokensCons(ts[0], tail);
      assert ts + Tokens(rest) == [ts[0]] + (ts[1..] + Tokens(rest));
    }
  }

  /** `p` with the leading directory or entry `from` replaced by `to`. */
  function Rebased(from: bytes, to: bytes, p: bytes): bytes {
    if p == from then to else if from + ROOT <= p then to + p[|from|..] else p
  }

  lemma RebasedBelow(a: seq<bytes>, t: seq<bytes>, r: seq<bytes>)
    requires Names(a) && a != [] && t != []
    ensures PathOf(t + r) == Rebased(PathOf(a), PathOf(t), PathOf(a + r))
  {
    JoinConcat(a, r);
    JoinConcat(t, r);
    if r == [] {
      assert a + r == a && t + r == t;
    } else {
      var p := Join(a) + Join(r);
      assert p[|Join(a)|..] == Join(r);
      assert p[..|Join(a)| + 1] == Join(a) + ROOT;
    }
  }

  lemma TokensOfPrefix(a: seq<bytes>, p: bytes, rest: bytes)
    requires Names(a) && p == Join(a) + rest && rest != [] && rest[0] == SLASH
    ensures a <= Tokens(p)
  {
    TokensOfJoinThen(a, rest);
  }

  lemma AfterSlashed(p: bytes, q: bytes) returns (rest: bytes)
    requires p + ROOT <= q
    ensures q == p + rest && rest != [] && rest[0] == SLASH
  {
    rest := q[|p|..];
    assert q[|p|] == (p + ROOT)[|p|];
  }

  /** A path that starts with another one and a slash is below it. */
  lemma StringPrefixIsBelow(a: seq<bytes>, b: seq<bytes>)
    requires Names(a) && Names(b) && a != []
    ensures PathOf(a) + ROOT <= PathOf(b) ==> a <= b
    ensures PathOf(a) == PathOf(b) ==> a == b
  {
    TokensOfPath(a);
    TokensOfPath(b);
    if PathOf(a) + ROOT <= PathOf(b) {
      var rest := AfterSlashed(PathOf(a), PathOf(b));
      TokensOfPrefix(a, PathOf(b), rest);
    }
  }

  lemma RebasedElsewhere(a: seq<bytes>, t: seq<bytes>, b: seq<bytes>)
    requires Names(a) && Names(b) && a != [] && !(a <= b)
    ensures Rebased(PathOf(a), PathOf(t), PathOf(b)) == PathOf(b)
  {
    StringPrefixIsBelow(a, b);
  }

  /** The path of an entry called `name` in the directory `dir`. */
  function Child(dir: bytes, name: bytes): bytes {
    (if dir == ROOT then [] else dir) + ROOT + name
  }

  lemma PathSnoc(ts: seq<bytes>, name: bytes)
    requires Names(ts)
    ensures PathOf(ts + [name]) == Child(PathOf(ts), name)
  {
    JoinConcat(ts, [name]);
    assert Join([name]) == ROOT + name;
    if ts != [] {
      JoinIsCanonical(ts);
    }
  }

  // ---- The tokeniser ----

  lemma TokensSkip(path: bytes, i: nat)
    requires i < |path| && path[i] == SLASH
    ensures Tokens(path[i..]) == Tokens(path[i + 1..])
  {
    assert path[i..][1..] == path[i + 1..];
  }

  lemma TokensStep(path: bytes, i: nat, j: nat)
    requires i < j <= |path| && (forall k | i <= k < j :: path[k] != SLASH) && (j < |path| ==> path[j] == SLASH)
    ensures Tokens(path[i..]) == [path[i..j]] + Tokens(path[j..])
  {
    var q := path[i..];
    assert q[..j - i] == path[i..j] && q[j - i..] == path[j..];
    SpanAt(q, j - i);
    assert q[0] == path[i..j][0];
  }

  method SkipSlashes(path: bytes, start: nat) returns (i: nat)
    requires start <= |path|
    ensures start <= i <= |path| && (i < |path| ==> path[i] != SLASH)
    ensures Tokens(path[i..]) == Tokens(path[start..])
  {
    i := start;
    while i < |path| && path[i] == SLASH
      invariant start <= i <= |path|
      invariant Tokens(path[i..]) == Tokens(path[start..])
    {
      TokensSkip(path, i);
      i := i + 1;
    }
  }

  method ScanName(path: bytes, i: nat) returns (j: nat)
    requires i < |path| && path[i] != SLASH
    ensures i < j <= |path|
    ensures Tokens(path[i..]) == [path[i..j]] + Tokens(path[j..])
  {
    j := i;
    while j < |path| && path[j] != SLASH
      invariant i <= j <= |path|
      invariant forall k | i <= k < j :: path[k] != SLASH
    {
      j := j + 1;
    }
    TokensStep(path, i, j);
  }

  method SplitPathTokens(path: bytes) returns (out: seq<bytes>)
    ensures out == Tokens(path)
  {
    out := [];
    var i := 0;
    while i < |path|
      invariant 0 <= i <= |path|
      invariant out + Tokens(path[i..]) == Tokens(path)
    {
      i := SkipSlashes(path, i);
      if i >= |path| {
        break;
      }
      var j := ScanName(path, i);
      Assoc(out, [path[i..j]], Tokens(path[j..]));
      out := out + [path[i..j]];
      i := j;
    }
    assert path[i..] == [];
  }
}
