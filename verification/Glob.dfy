/**
 Glob patterns: the backtracking matcher, glob escaping, and `{name}` substitution.

 The meaning of a pattern is the token list `Tokens(pattern)` and the relation
 `Matches(tokens, s)`; the iterative matcher is proved equal to it.
 A char of a Dafny string stands for one byte of a Go string.
 */
module Glob {
  import opened Arithmetic

  // ---------------------------------------------------------------- meaning

  datatype Token = Star | Lit(c: char)

  /** The tokens of a pattern: `*` is a star, a backslash escapes the next byte,
      a lone trailing backslash is literal. */
  function Tokens(p: string): seq<Token>
  {
    if p == "" then []
    else if p[0] == '*' then [Star] + Tokens(p[1..])
    else if p[0] == '\\' && |p| > 1 then [Lit(p[1])] + Tokens(p[2..])
    else [Lit(p[0])] + Tokens(p[1..])
  }

  /** A star stands for any run of bytes, a literal for itself. */
  ghost predicate Matches(toks: seq<Token>, s: string)
    decreases |toks|
  {
    if toks == [] then s == ""
    else match toks[0]
      case Lit(c) => s != "" && s[0] == c && Matches(toks[1..], s[1..])
      case Star => exists k :: 0 <= k <= |s| && Matches(toks[1..], s[k..])
  }

  ghost predicate GlobMatch(pattern: string, s: string) { Matches(Tokens(pattern), s) }

  function Lits(v: string): (toks: seq<Token>)
    ensures |toks| == |v|
    ensures forall i :: 0 <= i < |v| ==> toks[i] == Lit(v[i])
  {
    seq(|v|, i requires 0 <= i < |v| => Lit(v[i]))
  }

  /** A run of literals consumes exactly that run. */
  lemma {:induction false} LitsPrefix(v: string, rest: seq<Token>, s: string)
    ensures Matches(Lits(v) + rest, s) <==> v <= s && Matches(rest, s[|v|..])
    decreases |v|
  {
    var toks := Lits(v) + rest;
    if v == "" {
      assert toks == rest && s[0..] == s;
    } else {
      assert toks[0] == Lit(v[0]) && toks[1..] == Lits(v[1..]) + rest;
      if s != "" && s[0] == v[0] {
        LitsPrefix(v[1..], rest, s[1..]);
        assert v == [v[0]] + v[1..] && s == [s[0]] + s[1..];
        if v <= s {
          assert s[1..][|v[1..]|..] == s[|v|..];
        }
        if v[1..] <= s[1..] {
          assert forall i :: 0 < i < |v| ==> v[i] == v[1..][i - 1] == s[1..][i - 1] == s[i];
          assert s[1..][|v[1..]|..] == s[|v|..];
        }
      }
    }
  }

  // ---------------------------------------------------------------- token

  /** One token read at position i, with the number of bytes it spans. */
  function TokenAt(p: string, i: nat): (r: (Token, nat))
    requires i < |p|
    ensures 1 <= r.1 <= 2 && i + r.1 <= |p|
  {
    if p[i] == '*' then (Star, 1)
    else if p[i] == '\\' && i + 1 < |p| then (Lit(p[i + 1]), 2)
    else (Lit(p[i]), 1)
  }

  lemma TokenAtIsFirst(p: string, i: nat)
    requires i < |p|
    ensures var (t, w) := TokenAt(p, i); Tokens(p[i..]) == [t] + Tokens(p[i + w..])
  {
    assert p[i..][1..] == p[i + 1..];
    if i + 2 <= |p| {
      assert p[i..][2..] == p[i + 2..];
    }
  }

  // ---------------------------------------------------------------- matcher

  /** What is left to match from a pattern position and a string position. */
  type Rest = (nat, nat) -> bool

  ghost function RestOf(pattern: string, s: string): Rest
  {
    (p: nat, i: nat) => p <= |pattern| && i <= |s| && Matches(Tokens(pattern[p..]), s[i..])
  }

  /** Some start strictly after i lets the pattern from position p match. */
  ghost predicate Later(f: Rest, p: nat, i: nat, n: nat)
  {
    exists k: nat :: i < k <= n && f(p, k)
  }

  ghost predicate StarAt(f: Rest, p: nat, n: nat)
  {
    forall i: nat :: i <= n ==> (f(p, i) <==> f(p + 1, i) || Later(f, p + 1, i, n))
  }

  ghost predicate LitAt(f: Rest, p: nat, w: nat, c: char, s: string)
  {
    forall i: nat :: f(p, i) <==> i < |s| && s[i] == c && f(p + w, i + 1)
  }

  /** How f depends on the token at position p. */
  ghost predicate TokenLaw(f: Rest, pattern: string, s: string, p: nat)
  {
    p < |pattern| ==>
      match TokenAt(pattern, p)
      case (Star, w) => w == 1 && StarAt(f, p, |s|)
      case (Lit(c), w) => LitAt(f, p, w, c, s)
  }

  ghost predicate Obeys(f: Rest, pattern: string, s: string)
  {
    && (forall p: nat :: TokenLaw(f, pattern, s, p))
    && (forall i: nat :: f(|pattern|, i) <==> i == |s|)
  }

  lemma StarLaw(pattern: string, s: string, p: nat, i: nat)
    requires p < |pattern| && i <= |s| && TokenAt(pattern, p).0 == Star
    ensures var rest := Tokens(pattern[p + 1..]);
            Matches(Tokens(pattern[p..]), s[i..]) <==>
            Matches(rest, s[i..]) || exists k :: i < k <= |s| && Matches(rest, s[k..])
  {
    var rest := Tokens(pattern[p + 1..]);
    TokenAtIsFirst(pattern, p);
    assert Tokens(pattern[p..])[1..] == rest;
    if Matches(Tokens(pattern[p..]), s[i..]) {
      var k :| 0 <= k <= |s[i..]| && Matches(rest, s[i..][k..]);
      assert s[i..][k..] == s[i + k..];
    }
    if Matches(rest, s[i..]) {
      assert s[i..][0..] == s[i..];
    }
    if k :| i < k <= |s| && Matches(rest, s[k..]) {
      assert s[i..][k - i..] == s[k..];
    }
  }

  lemma LitLaw(pattern: string, s: string, p: nat, i: nat)
    requires p < |pattern| && i <= |s| && TokenAt(pattern, p).0.Lit?
    ensures var (t, w) := TokenAt(pattern, p);
            Matches(Tokens(pattern[p..]), s[i..]) <==>
            i < |s| && s[i] == t.c && Matches(Tokens(pattern[p + w..]), s[i + 1..])
  {
    var (t, w) := TokenAt(pattern, p);
    TokenAtIsFirst(pattern, p);
    assert Tokens(pattern[p..])[1..] == Tokens(pattern[p + w..]);
    if i < |s| {
      assert s[i..][1..] == s[i + 1..];
    }
  }

  lemma RestObeysStar(pattern: string, s: string, p: nat)
    requires p < |pattern| && TokenAt(pattern, p).0 == Star
    ensures StarAt(RestOf(pattern, s), p, |s|)
  {
    var f := RestOf(pattern, s);
    forall i: nat | i <= |s|
      ensures f(p, i) <==> f(p + 1, i) || Later(f, p + 1, i, |s|)
    {
      StarLaw(pattern, s, p, i);
      assert forall k: nat :: k <= |s| ==> (f(p + 1, k) <==> Matches(Tokens(pattern[p + 1..]), s[k..]));
    }
  }

  lemma RestObeysLit(pattern: string, s: string, p: nat)
    requires p < |pattern| && TokenAt(pattern, p).0.Lit?
    ensures var (t, w) := TokenAt(pattern, p); LitAt(RestOf(pattern, s), p, w, t.c, s)
  {
    var f := RestOf(pattern, s);
    var (t, w) := TokenAt(pattern, p);
    forall i: nat
      ensures f(p, i) <==> i < |s| && s[i] == t.c && f(p + w, i + 1)
    {
      if i <= |s| {
        LitLaw(pattern, s, p, i);
      }
    }
  }

  lemma RestObeys(pattern: string, s: string)
    ensures Obeys(RestOf(pattern, s), pattern, s)
    ensures RestOf(pattern, s)(0, 0) <==> GlobMatch(pattern, s)
  {
    forall p: nat
      ensures TokenLaw(RestOf(pattern, s), pattern, s, p)
    {
      if p < |pattern| {
        if TokenAt(pattern, p).0 == Star { RestObeysStar(pattern, s, p); } else { RestObeysLit(pattern, s, p); }
      }
    }
    assert pattern[|pattern|..] == "" && pattern[0..] == pattern && s[0..] == s;
  }

  /** The tokens from q up to p are a run of `len` literals: whatever start they match at,
      what follows matches `len` later. */
  ghost predicate LiteralRun(f: Rest, q: nat, p: nat, len: nat, n: nat)
  {
    forall k: nat :: k <= n && f(q, k) ==> k + len <= n && f(p, k + len)
  }

  lemma RunExtends(f: Rest, q: nat, p: nat, len: nat, w: nat, c: char, s: string)
    requires LiteralRun(f, q, p, len, |s|) && LitAt(f, p, w, c, s)
    ensures LiteralRun(f, q, p + w, len + 1, |s|)
  {
    forall k: nat | k <= |s| && f(q, k)
      ensures k + (len + 1) <= |s| && f(p + w, k + (len + 1))
    {
      assert f(p, k + len);
    }
  }

  /** A later star subsumes the earlier one: forgetting it loses no match. */
  lemma NewStarSubsumes(f: Rest, q: nat, p: nat, from: nat, to: nat, n: nat)
    requires StarAt(f, p, n) && from <= to <= n && LiteralRun(f, q, p, to - from, n)
    ensures Later(f, q, from, n) ==> f(p, to)
  {
    if Later(f, q, from, n) {
      var k: nat :| from < k <= n && f(q, k);
      var k' := k + (to - from);
      assert f(p, k') && to < k' <= n;
      if !f(p + 1, k') {
        var j: nat :| k' < j <= n && f(p + 1, j);
        assert to < j;
      }
    }
  }

  /** Iterations that may still follow, for a string of m and a pattern of n bytes. */
  ghost function WorkLeft(m: nat, n: nat, starI: nat, p: nat): nat
    requires starI <= m && p <= n
  {
    Times(m - starI, n + 1) + (n - p)
  }

  lemma WorkShrinks(m: nat, n: nat, starI: nat, p: nat, starI': nat, p': nat)
    requires starI <= starI' <= m && p <= n && p' <= n
    requires starI < starI' || p < p'
    ensures WorkLeft(m, n, starI', p') < WorkLeft(m, n, starI, p)
  {
    TimesMonotone(m - starI, m - starI', n + 1);
  }

  /** The matcher's state: pattern and string positions, and the saved star. */
  datatype Search = Search(p: nat, i: nat, starP: int, starI: nat)

  /** The state keeps the answer: what is left from here, or a later start of the text after
      the saved star; and what was read since that star is a run of literals. */
  ghost predicate Searching(f: Rest, m: nat, n: nat, c: Search)
  {
    && -1 <= c.starP < c.p <= n && c.starI <= c.i <= m
    && (f(0, 0) <==> f(c.p, c.i) || (c.starP >= 0 && Later(f, c.starP + 1, c.starI, m)))
    && (c.starP >= 0 ==> LiteralRun(f, c.starP + 1, c.p, c.i - c.starI, m))
  }

  lemma SearchStar(f: Rest, m: nat, n: nat, c: Search, w: nat)
    requires Searching(f, m, n, c) && c.p < n && w == 1 && StarAt(f, c.p, m)
    ensures Searching(f, m, n, Search(c.p + w, c.i, c.p, c.i))
  {
    if c.starP >= 0 { NewStarSubsumes(f, c.starP + 1, c.p, c.starI, c.i, m); }
  }

  lemma SearchLit(f: Rest, n: nat, c: Search, w: nat, s: string)
    requires Searching(f, |s|, n, c) && c.p + w <= n && c.i < |s| && LitAt(f, c.p, w, s[c.i], s)
    ensures Searching(f, |s|, n, Search(c.p + w, c.i + 1, c.starP, c.starI))
  {
    if c.starP >= 0 { RunExtends(f, c.starP + 1, c.p, c.i - c.starI, w, s[c.i], s); }
  }

  lemma SearchStuck(f: Rest, m: nat, n: nat, c: Search)
    requires Searching(f, m, n, c) && c.i < m && !f(c.p, c.i)
    ensures c.starP < 0 ==> !f(0, 0)
    ensures c.starP >= 0 ==> Searching(f, m, n, Search(c.starP + 1, c.starI + 1, c.starP, c.starI + 1))
  {
    if c.starP >= 0 && Later(f, c.starP + 1, c.starI, m) {
      var k: nat :| c.starI < k <= m && f(c.starP + 1, k);
      assert k == c.starI + 1 || c.starI + 1 < k;
    }
  }

  lemma AtStar(f: Rest, pattern: string, s: string, c: Search, w: nat)
    requires Obeys(f, pattern, s) && Searching(f, |s|, |pattern|, c)
    requires c.p < |pattern| && TokenAt(pattern, c.p) == (Star, w)
    ensures Searching(f, |s|, |pattern|, Search(c.p + w, c.i, c.p, c.i))
  {
    assert TokenLaw(f, pattern, s, c.p);
    SearchStar(f, |s|, |pattern|, c, w);
  }

  lemma AtLit(f: Rest, pattern: string, s: string, c: Search, w: nat)
    requires Obeys(f, pattern, s) && Searching(f, |s|, |pattern|, c)
    requires c.p < |pattern| && c.i < |s| && TokenAt(pattern, c.p) == (Lit(s[c.i]), w)
    ensures Searching(f, |s|, |pattern|, Search(c.p + w, c.i + 1, c.starP, c.starI))
  {
    assert TokenLaw(f, pattern, s, c.p);
    SearchLit(f, |pattern|, c, w, s);
  }

  lemma AtMismatch(f: Rest, pattern: string, s: string, c: Search)
    requires Obeys(f, pattern, s) && Searching(f, |s|, |pattern|, c) && c.i < |s|
    requires c.p == |pattern| || (TokenAt(pattern, c.p).0.Lit? && TokenAt(pattern, c.p).0.c != s[c.i])
    ensures c.starP < 0 ==> !f(0, 0)
    ensures c.starP >= 0 ==> Searching(f, |s|, |pattern|, Search(c.starP + 1, c.starI + 1, c.starP, c.starI + 1))
  {
    assert TokenLaw(f, pattern, s, c.p);
    SearchStuck(f, |s|, |pattern|, c);
  }

  lemma SearchEnds(f: Rest, m: nat, n: nat, c: Search)
    requires Searching(f, m, n, c) && c.i == m
    ensures f(0, 0) <==> f(c.p, m)
  {
  }

  /** The second loop: with the string used up, only stars may remain. */
  method OnlyStars(pattern: string, start: nat, ghost s: string, ghost f: Rest) returns (r: bool)
    requires start <= |pattern| && Obeys(f, pattern, s)
    ensures r <==> f(start, |s|)
  {
    var p := start;
    while p < |pattern|
      invariant 0 <= p <= |pattern|
      invariant f(start, |s|) <==> f(p, |s|)
    {
      assert TokenLaw(f, pattern, s, p);
      var (t, w) := TokenAt(pattern, p);
      if !t.Star? {
        return false;
      }
      p := p + w;
    }
    return true;
  }

  /** Both loops of the matcher, for any f that follows the pattern's tokens. */
  method Backtrack(pattern: string, s: string, ghost f: Rest) returns (r: bool, ghost steps: nat)
    requires Obeys(f, pattern, s)
    ensures r <==> f(0, 0)
    ensures steps <= WorkLeft(|s|, |pattern|, 0, 0)
  {
    var p, i := 0, 0;
    var starP, starI := -1, 0;
    steps := 0;
    ghost var c := Search(p, i, starP, starI);
    while i < |s|
      invariant -1 <= starP < p <= |pattern| && 0 <= starI <= i <= |s|
      invariant c == Search(p, i, starP, starI) && Searching(f, |s|, |pattern|, c)
      invariant steps + WorkLeft(|s|, |pattern|, starI, p) <= WorkLeft(|s|, |pattern|, 0, 0)
      decreases WorkLeft(|s|, |pattern|, starI, p)
    {
      steps := steps + 1;
      if p < |pattern| {
        var (t, w) := TokenAt(pattern, p);
        if t.Star? {
          AtStar(f, pattern, s, c, w);
          c := Search(c.p + w, c.i, c.p, c.i);
          WorkShrinks(|s|, |pattern|, starI, p, i, p + w);
          starP, starI := p, i;
          p := p + w;
          continue;
        }
        if t.c == s[i] {
          AtLit(f, pattern, s, c, w);
          c := Search(c.p + w, c.i + 1, c.starP, c.starI);
          WorkShrinks(|s|, |pattern|, starI, p, starI, p + w);
          p := p + w;
          i := i + 1;
          continue;
        }
      }
      AtMismatch(f, pattern, s, c);
      if starP < 0 {
        return false, steps;
      }
      c := Search(c.starP + 1, c.starI + 1, c.starP, c.starI + 1);
      WorkShrinks(|s|, |pattern|, starI, p, starI + 1, starP + 1);
      starI := starI + 1;
      i := starI;
      p := starP + 1;
    }
    SearchEnds(f, |s|, |pattern|, c);
    r := OnlyStars(pattern, p, s, f);
  }

  /** The iterative matcher with one saved star decides the meaning of the pattern. `steps`
      counts iterations of its first loop: the documented O(len(pattern)*len(s)). */
  method Match(pattern: string, s: string) returns (r: bool, ghost steps: nat)
    ensures r <==> GlobMatch(pattern, s)
    ensures steps <= |s| * (|pattern| + 1) + |pattern|
  {
    RestObeys(pattern, s);
    TimesIsProduct(|s|, |pattern| + 1);
    r, steps := Backtrack(pattern, s, RestOf(pattern, s));
  }

  // ---------------------------------------------------------------- escape

  predicate Special(c: char) { c == '*' || c == '\\' }

  function EscapedChar(c: char): string { if Special(c) then ['\\', c] else [c] }

  function Escaped(v: string): string
  {
    if v == "" then ""
    else EscapedChar(v[0]) + Escaped(v[1..])
  }

  lemma {:induction false} EscapedPlain(v: string)
    requires forall c :: c in v ==> !Special(c)
    ensures Escaped(v) == v
  {
    if v != "" {
      EscapedPlain(v[1..]);
    }
  }

  lemma {:induction false} EscapedSnoc(v: string, c: char)
    ensures Escaped(v + [c]) == Escaped(v) + EscapedChar(c)
  {
    if v == "" {
      assert v + [c] == [c];
    } else {
      assert (v + [c])[1..] == v[1..] + [c];
      EscapedSnoc(v[1..], c);
    }
  }

  method Escape(v: string) returns (r: string)
    ensures r == Escaped(v)
  {
    if forall i :: 0 <= i < |v| ==> !Special(v[i]) {
      EscapedPlain(v);
      return v;
    }
    r := "";
    for i := 0 to |v|
      invariant r == Escaped(v[..i])
    {
      assert v[..i + 1] == v[..i] + [v[i]];
      EscapedSnoc(v[..i], v[i]);
      if v[i] == '*' || v[i] == '\\' {
        r := r + ['\\'];
      }
      r := r + [v[i]];
    }
    assert v[..|v|] == v;
  }

  lemma EscapedCharToken(c: char, rest: string)
    ensures Tokens(EscapedChar(c) + rest) == [Lit(c)] + Tokens(rest)
  {
    var s := EscapedChar(c) + rest;
    assert s[|EscapedChar(c)|..] == rest;
  }

  /** Escaped text contributes exactly its own bytes as literals, whatever follows. */
  lemma {:induction false} TokensOfEscaped(v: string, rest: string)
    ensures Tokens(Escaped(v) + rest) == Lits(v) + Tokens(rest)
  {
    if v == "" {
      assert Escaped(v) + rest == rest;
    } else {
      var tail := Escaped(v[1..]) + rest;
      assert Escaped(v) + rest == EscapedChar(v[0]) + tail;
      EscapedCharToken(v[0], tail);
      TokensOfEscaped(v[1..], rest);
      assert Lits(v) == [Lit(v[0])] + Lits(v[1..]);
    }
  }

  /** An escaped value matches itself and nothing else. */
  lemma EscapeIsLiteral(v: string, s: string)
    ensures GlobMatch(Escaped(v), s) <==> s == v
  {
    assert Escaped(v) + "" == Escaped(v) && Lits(v) + [] == Lits(v);
    TokensOfEscaped(v, "");
    LitsPrefix(v, [], s);
  }

  // ---------------------------------------------------------------- expand

  type Vars = map<string, string>

  predicate IsVarChar(c: char)
  {
    'a' <= c <= 'z' || 'A' <= c <= 'Z' || '0' <= c <= '9' || c == '_' || c == '.' || c == '-'
  }

  /** Length of the leading run of variable-name bytes. */
  function NameLen(s: string): (n: nat)
    ensures n <= |s|
    ensures forall i :: 0 <= i < n ==> IsVarChar(s[i])
    ensures n < |s| ==> !IsVarChar(s[n])
  {
    if s == "" || !IsVarChar(s[0]) then 0 else 1 + NameLen(s[1..])
  }

  /** s begins with a reference `{name}`. */
  predicate IsRef(s: string)
  {
    s != "" && s[0] == '{' && var n := NameLen(s[1..]); n > 0 && n + 1 < |s| && s[n + 1] == '}'
  }

  function RefName(s: string): (name: string)
    requires IsRef(s)
    ensures |name| + 2 <= |s|
  {
    s[1..NameLen(s[1..]) + 1]
  }

  function AfterRef(s: string): (rest: string)
    requires IsRef(s)
    ensures |rest| < |s|
  {
    s[NameLen(s[1..]) + 2..]
  }

  /** An unbound name stands for the empty value. */
  function ValueOf(vars: Vars, name: string): string
  {
    if name in vars then vars[name] else ""
  }

  function Expanded(s: string, vars: Vars, escape: bool): string
    decreases |s|
  {
    if s == "" then ""
    else if IsRef(s) then Substituted(vars, RefName(s), escape) + Expanded(AfterRef(s), vars, escape)
    else [s[0]] + Expanded(s[1..], vars, escape)
  }

  /** Names referenced by a template. */
  function Names(s: string): set<string>
    decreases |s|
  {
    if s == "" then {}
    else if IsRef(s) then {RefName(s)} + Names(AfterRef(s))
    else Names(s[1..])
  }

  lemma {:induction false} ExpandedPlain(s: string, vars: Vars, escape: bool)
    requires '{' !in s
    ensures Expanded(s, vars, escape) == s && Names(s) == {}
  {
    if s != "" {
      ExpandedPlain(s[1..], vars, escape);
    }
  }

  /** The text a reference becomes. */
  function Substituted(vars: Vars, name: string, escape: bool): string
  {
    if escape then Escaped(ValueOf(vars, name)) else ValueOf(vars, name)
  }

  method Substitute(name: string, vars: Vars, escape: bool) returns (v: string, found: bool)
    ensures v == Substituted(vars, name, escape)
    ensures found <==> name in vars
  {
    v, found := "", name in vars;
    if found {
      v := vars[name];
    }
    if escape {
      v := Escape(v);
    }
  }

  /** The closing brace of the reference at i, or i itself when there is none. */
  function RefEnd(s: string, i: nat): (j: nat)
    requires i < |s|
    ensures i <= j < |s|
  {
    var j := i + 1 + NameLen(s[i + 1..]);
    if s[i] == '{' && i + 1 < j < |s| && s[j] == '}' then j else i
  }

  /** End of the variable name that starts at `from`. */
  method ScanName(s: string, from: nat) returns (j: nat)
    requires from <= |s|
    ensures j == from + NameLen(s[from..])
  {
    j := from;
    while j < |s| && IsVarChar(s[j])
      invariant from <= j <= |s|
      invariant NameLen(s[from..]) == j - from + NameLen(s[j..])
    {
      assert s[j..][1..] == s[j + 1..];
      j := j + 1;
    }
  }

  method FindRef(s: string, i: nat) returns (end: nat)
    requires i < |s|
    ensures end == RefEnd(s, i)
  {
    if s[i] != '{' {
      return i;
    }
    var j := ScanName(s, i + 1);
    if j == i + 1 || j >= |s| || s[j] != '}' {
      return i;
    }
    return j;
  }

  lemma RefAt(s: string, i: nat)
    requires i < |s|
    ensures IsRef(s[i..]) <==> RefEnd(s, i) > i
    ensures var j := RefEnd(s, i); j > i ==> RefName(s[i..]) == s[i + 1..j] && AfterRef(s[i..]) == s[j + 1..]
  {
    assert s[i..][1..] == s[i + 1..];
  }

  /** The expansion of a text, and the names it refers to. */
  type Text = string -> string
  type NameSet = string -> set<string>

  ghost function TextOf(vars: Vars, escape: bool): Text { t => Expanded(t, vars, escape) }

  ghost predicate StepLaw(x: Text, nm: NameSet, s: string, vars: Vars, escape: bool, i: nat)
    requires i < |s|
  {
    var j := RefEnd(s, i);
    if j == i then x(s[i..]) == [s[i]] + x(s[i + 1..]) && nm(s[i..]) == nm(s[i + 1..])
    else x(s[i..]) == Substituted(vars, s[i + 1..j], escape) + x(s[j + 1..])
         && nm(s[i..]) == {s[i + 1..j]} + nm(s[j + 1..])
  }

  ghost predicate Follows(x: Text, nm: NameSet, s: string, vars: Vars, escape: bool)
  {
    x("") == "" && nm("") == {} && forall i: nat | i < |s| :: StepLaw(x, nm, s, vars, escape, i)
  }

  lemma ExpandedStep(s: string, vars: Vars, escape: bool, i: nat)
    requires i < |s|
    ensures StepLaw(TextOf(vars, escape), Names, s, vars, escape, i)
  {
    RefAt(s, i);
    if RefEnd(s, i) == i {
      assert s[i..][1..] == s[i + 1..];
    }
  }

  lemma ExpandedFollows(s: string, vars: Vars, escape: bool)
    ensures Follows(TextOf(vars, escape), Names, s, vars, escape)
  {
    forall i: nat | i < |s|
      ensures StepLaw(TextOf(vars, escape), Names, s, vars, escape, i)
    {
      ExpandedStep(s, vars, escape, i);
    }
  }

  lemma Reassociate(out: string, a: string, b: string)
    ensures (out + a) + b == out + (a + b)
  {
  }

  /** The substitution loop, for any x and nm that follow the text. */
  method ExpandFrom(s: string, vars: Vars, escape: bool, ghost x: Text, ghost nm: NameSet)
    returns (out: string, ok: bool)
    requires Follows(x, nm, s, vars, escape)
    ensures out == x(s) && (ok <==> nm(s) <= vars.Keys)
  {
    out, ok := "", true;
    var i := 0;
    assert s[0..] == s;
    while i < |s|
      invariant 0 <= i <= |s|
      invariant x(s) == out + x(s[i..])
      invariant nm(s) <= vars.Keys <==> ok && nm(s[i..]) <= vars.Keys
    {
      assert StepLaw(x, nm, s, vars, escape, i);
      var j := FindRef(s, i);
      if j == i {
        Reassociate(out, [s[i]], x(s[i + 1..]));
        out := out + [s[i]];
      } else {
        var v, found := Substitute(s[i + 1..j], vars, escape);
        Reassociate(out, v, x(s[j + 1..]));
        out := out + v;
        if !found {
          ok := false;
        }
      }
      i := j + 1;
    }
    assert s[i..] == "";
  }

  /** Substitution in one left-to-right pass; substituted text is never rescanned.
      `ok` is false when a referenced variable is missing. */
  method Expand(s: string, vars: Vars, escape: bool) returns (out: string, ok: bool)
    ensures out == Expanded(s, vars, escape)
    ensures ok <==> Names(s) <= vars.Keys
  {
    if '{' !in s {
      ExpandedPlain(s, vars, escape);
      return s, true;
    }
    ExpandedFollows(s, vars, escape);
    out, ok := ExpandFrom(s, vars, escape, TextOf(vars, escape), Names);
  }

  // ---------------------------------------------------------------- substituted values are literal

  /** What a template means: its text read as a pattern, chunk by chunk between the
      references, and each reference the literal bytes of its value. A backslash at
      the end of a chunk is a lone trailing backslash, hence literal. */
  function TemplateTokens(s: string, vars: Vars): seq<Token>
    decreases |s|
  {
    if s == "" then []
    else if IsRef(s) then Lits(ValueOf(vars, RefName(s))) + TemplateTokens(AfterRef(s), vars)
    else if s[0] == '*' then [Star] + TemplateTokens(s[1..], vars)
    else if s[0] == '\\' && |s| > 1 && !IsRef(s[1..]) then [Lit(s[1])] + TemplateTokens(s[2..], vars)
    else [Lit(s[0])] + TemplateTokens(s[1..], vars)
  }

  /** No unescaped backslash stands directly before a reference. */
  predicate Guarded(s: string)
    decreases |s|
  {
    if s == "" then true
    else if IsRef(s) then Guarded(AfterRef(s))
    else if s[0] == '\\' && |s| > 1 then !IsRef(s[1..]) && Guarded(s[2..])
    else Guarded(s[1..])
  }

  /** In a guarded template the expansion reads back as the intended tokens. */
  lemma {:induction false} GuardedExpansion(s: string, vars: Vars)
    requires Guarded(s)
    ensures Tokens(Expanded(s, vars, true)) == TemplateTokens(s, vars)
    decreases |s|
  {
    var e := Expanded(s, vars, true);
    if s == "" {
    } else if IsRef(s) {
      GuardedExpansion(AfterRef(s), vars);
      TokensOfEscaped(ValueOf(vars, RefName(s)), Expanded(AfterRef(s), vars, true));
    } else if s[0] == '\\' && |s| > 1 {
      GuardedExpansion(s[2..], vars);
      assert s[1..][1..] == s[2..];
      assert Expanded(s[1..], vars, true) == [s[1]] + Expanded(s[2..], vars, true);
      assert e == [s[0], s[1]] + Expanded(s[2..], vars, true);
      assert e[2..] == Expanded(s[2..], vars, true);
    } else {
      GuardedExpansion(s[1..], vars);
      assert e[1..] == Expanded(s[1..], vars, true);
      if s[0] == '\\' {
        assert s[1..] == "" && e == s;
      }
    }
  }

  /** Bytes that must appear in any match. */
  function LitBytes(toks: seq<Token>): string
  {
    if toks == [] then "" else (if toks[0].Lit? then [toks[0].c] else "") + LitBytes(toks[1..])
  }

  lemma {:induction false} ShortestMatch(toks: seq<Token>)
    ensures Matches(toks, LitBytes(toks))
  {
    if toks != [] {
      ShortestMatch(toks[1..]);
      var s := LitBytes(toks);
      if toks[0].Lit? {
        assert s[1..] == LitBytes(toks[1..]);
      } else {
        assert s[0..] == LitBytes(toks[1..]);
      }
    }
  }

  lemma {:induction false} MatchIsLongEnough(toks: seq<Token>, s: string)
    requires Matches(toks, s)
    ensures |LitBytes(toks)| <= |s|
    decreases |toks|
  {
    if toks != [] {
      match toks[0]
      case Lit(c) => MatchIsLongEnough(toks[1..], s[1..]);
      case Star =>
        var k :| 0 <= k <= |s| && Matches(toks[1..], s[k..]);
        MatchIsLongEnough(toks[1..], s[k..]);
    }
  }

  lemma {:induction false} LitBytesConcat(a: seq<Token>, b: seq<Token>)
    ensures LitBytes(a + b) == LitBytes(a) + LitBytes(b)
  {
    if a == [] {
      assert a + b == b;
    } else {
      assert (a + b)[1..] == a[1..] + b && (a + b)[0] == a[0];
      LitBytesConcat(a[1..], b);
      Reassociate(if a[0].Lit? then [a[0].c] else "", LitBytes(a[1..]), LitBytes(b));
    }
  }

  ghost predicate BoundToA(s: string, vars: Vars)
  {
    forall n :: n in Names(s) ==> n in vars && vars[n] == "a"
  }

  /** Literal bytes demanded by the expansion and by the template. */
  ghost function Demand(s: string, vars: Vars): (nat, nat)
  {
    (|LitBytes(Tokens(Expanded(s, vars, true)))|, |LitBytes(TemplateTokens(s, vars))|)
  }

  lemma RefDemand(s: string, vars: Vars)
    requires IsRef(s) && ValueOf(vars, RefName(s)) == "a"
    ensures var d, d' := Demand(s, vars), Demand(AfterRef(s), vars);
            d.0 == d'.0 + 1 && d.1 == d'.1 + 1
    ensures Expanded(s, vars, true) == "a" + Expanded(AfterRef(s), vars, true)
  {
    var rest := Expanded(AfterRef(s), vars, true);
    TokensOfEscaped("a", rest);
    LitBytesConcat(Lits("a"), Tokens(rest));
    LitBytesConcat(Lits("a"), TemplateTokens(AfterRef(s), vars));
    assert LitBytes(Lits("a")) == "a";
  }

  lemma LitBytesCons(c: char, rest: seq<Token>)
    ensures |LitBytes([Lit(c)] + rest)| == 1 + |LitBytes(rest)|
  {
    assert ([Lit(c)] + rest)[1..] == rest;
  }

  /** The substituted byte is taken as escaped. */
  lemma UnguardedExpands(s: string, vars: Vars)
    requires |s| > 1 && s[0] == '\\' && IsRef(s[1..]) && ValueOf(vars, RefName(s[1..])) == "a"
    ensures Tokens(Expanded(s, vars, true)) == [Lit('a')] + Tokens(Expanded(AfterRef(s[1..]), vars, true))
  {
    var e, rest := Expanded(s, vars, true), Expanded(AfterRef(s[1..]), vars, true);
    assert Escaped("a") == "a";
    assert e == ['\\', 'a'] + rest && e[2..] == rest;
  }

  lemma UnguardedDemand(s: string, vars: Vars)
    requires |s| > 1 && s[0] == '\\' && IsRef(s[1..]) && ValueOf(vars, RefName(s[1..])) == "a"
    ensures var d, d' := Demand(s, vars), Demand(AfterRef(s[1..]), vars);
            d.0 == d'.0 + 1 && d.1 == d'.1 + 2
  {
    RefDemand(s[1..], vars);
    UnguardedExpands(s, vars);
    LitBytesCons('a', Tokens(Expanded(AfterRef(s[1..]), vars, true)));
    LitBytesCons('\\', TemplateTokens(s[1..], vars));
  }

  /** An escaped byte stays escaped in the expansion. */
  lemma EscapeExpands(s: string, vars: Vars)
    requires |s| > 1 && s[0] == '\\' && !IsRef(s[1..])
    ensures Tokens(Expanded(s, vars, true)) == [Lit(s[1])] + Tokens(Expanded(s[2..], vars, true))
    ensures Names(s) == Names(s[2..])
  {
    var e, rest := Expanded(s, vars, true), Expanded(s[2..], vars, true);
    assert s[1..][1..] == s[2..];
    assert Expanded(s[1..], vars, true) == [s[1]] + rest;
    assert e == [s[0], s[1]] + rest && e[2..] == rest;
  }

  lemma EscapeDemand(s: string, vars: Vars)
    requires |s| > 1 && s[0] == '\\' && !IsRef(s[1..])
    ensures var d, d' := Demand(s, vars), Demand(s[2..], vars);
            d.0 == d'.0 + 1 && d.1 == d'.1 + 1
  {
    EscapeExpands(s, vars);
    LitBytesCons(s[1], Tokens(Expanded(s[2..], vars, true)));
    LitBytesCons(s[1], TemplateTokens(s[2..], vars));
  }

  lemma TextDemand(s: string, vars: Vars)
    requires s != "" && !IsRef(s) && (s[0] == '\\' ==> |s| == 1)
    ensures var d, d' := Demand(s, vars), Demand(s[1..], vars);
            d.0 - d'.0 == d.1 - d'.1
  {
    var e, rest := Expanded(s, vars, true), Expanded(s[1..], vars, true);
    assert e == [s[0]] + rest && e[1..] == rest;
    if s[0] == '\\' {
      assert s[1..] == "" && e == s;
    }
    var t := if s[0] == '*' then Star else Lit(s[0]);
    assert Tokens(e) == [t] + Tokens(rest) && TemplateTokens(s, vars) == [t] + TemplateTokens(s[1..], vars);
    LitBytesConcat([t], Tokens(rest));
    LitBytesConcat([t], TemplateTokens(s[1..], vars));
  }

  /** With every name bound to one ordinary byte, an unguarded backslash is swallowed
      by the substituted byte, so the expansion demands fewer bytes than intended. */
  lemma {:induction false} UnguardedLosesBytes(s: string, vars: Vars)
    requires BoundToA(s, vars)
    ensures Demand(s, vars).0 <= Demand(s, vars).1
    ensures !Guarded(s) ==> Demand(s, vars).0 < Demand(s, vars).1
    decreases |s|
  {
    if s == "" {
    } else if IsRef(s) {
      RefDemand(s, vars);
      UnguardedLosesBytes(AfterRef(s), vars);
    } else if s[0] == '\\' && |s| > 1 && IsRef(s[1..]) {
      assert Names(s) == Names(s[1..]) == {RefName(s[1..])} + Names(AfterRef(s[1..]));
      UnguardedDemand(s, vars);
      UnguardedLosesBytes(AfterRef(s[1..]), vars);
    } else if s[0] == '\\' && |s| > 1 {
      EscapeExpands(s, vars);
      EscapeDemand(s, vars);
      UnguardedLosesBytes(s[2..], vars);
    } else {
      TextDemand(s, vars);
      UnguardedLosesBytes(s[1..], vars);
    }
  }

  /** With these variables, every string is matched exactly as the template means. */
  ghost predicate ExpandsFaithfully(s: string, vars: Vars)
  {
    forall str :: GlobMatch(Expanded(s, vars, true), str) <==> Matches(TemplateTokens(s, vars), str)
  }

  /** Substituted values are literal for every binding exactly when no unescaped
      backslash stands directly before a reference. */
  lemma SubstitutionIsLiteralIff(s: string)
    ensures Guarded(s) <==> forall vars: Vars :: Names(s) <= vars.Keys ==> ExpandsFaithfully(s, vars)
  {
    if Guarded(s) {
      forall vars: Vars | Names(s) <= vars.Keys
        ensures ExpandsFaithfully(s, vars)
      {
        GuardedExpansion(s, vars);
      }
    } else {
      var vars: Vars := map n | n in Names(s) :: "a";
      UnguardedLosesBytes(s, vars);
      var toks := Tokens(Expanded(s, vars, true));
      ShortestMatch(toks);
      if Matches(TemplateTokens(s, vars), LitBytes(toks)) {
        MatchIsLongEnough(TemplateTokens(s, vars), LitBytes(toks));
      }
      assert !ExpandsFaithfully(s, vars);
    }
  }

  /** A concrete unguarded template: `\{x}` with x bound to `*` matches any string that
      starts with a backslash, so the value acts as a wildcard. */
  lemma UnguardedWildcard(tail: string)
    ensures !Guarded("\\{x}")
    ensures GlobMatch(Expanded("\\{x}", map["x" := "*"], true), "\\" + tail)
  {
    var pat := "\\{x}";
    var vars: Vars := map["x" := "*"];
    var ref := pat[1..];
    assert ref == "{x}" && ref[1..] == "x}" && ref[1..][1..] == "}";
    assert NameLen("}") == 0 && NameLen("x}") == 1;
    assert IsRef(ref) && RefName(ref) == "x" && AfterRef(ref) == "";
    assert Escaped("*") == "\\*";
    var e := Expanded(pat, vars, true);
    assert e == "\\" + Expanded(ref, vars, true) == "\\\\*";
    assert e[2..] == "*" && e[2..][1..] == "";
    assert Tokens(e) == [Lit('\\'), Star];
    var s := "\\" + tail;
    assert s[1..] == tail && tail[|tail|..] == "";
    assert Matches([], "") && Matches([Star], tail) by { assert [Star][1..] == []; }
    assert [Lit('\\'), Star][1..] == [Star];
  }
}
