/**
 The texts that the policy engine reads and reports: label patterns, statement numbers,
 resource segments and the scores of near misses.
 */
module PolicyTexts {
  import opened Glob
  import opened Templates
  import opened PolicyModel
  import opened Taint
  import opened PolicyExplain

  // ---------------------------------------------------------------- label patterns

  lemma TextTokens(p: string, rest: string)
    requires '*' !in p && '\\' !in p
    ensures Tokens(p + rest) == Lits(p) + Tokens(rest)
  {
    EscapedPlain(p);
    TokensOfEscaped(p, rest);
  }

  /** A label pattern is a name, or a prefix followed by a star; it matches as the same text does
      as a pattern for resources. */
  lemma LabelIff(p: string, l: string)
    requires '*' !in p && '\\' !in p
    ensures MatchLabel(p, l) <==> l == p
    ensures MatchLabel(p + "*", l) <==> p <= l
    ensures MatchLabel(p, l) <==> GlobMatch(p, l)
    ensures MatchLabel(p + "*", l) <==> GlobMatch(p + "*", l)
  {
    TextTokens(p, "");
    assert p + "" == p && Lits(p) + [] == Lits(p);
    LitsPrefix(p, [], l);
    TextTokens(p, "*");
    assert "*"[1..] == "" && Tokens("*") == [Star];
    LitsPrefix(p, [Star], l);
    assert (p + "*")[..|p|] == p;
    if p <= l {
      AnyTail(l[|p|..]);
    }
  }

  lemma AnyTail(s: string)
    ensures Matches([Star], s)
  {
    assert [Star][1..] == [] && s[|s|..] == "" && Matches([], s[|s|..]);
  }

  // ---------------------------------------------------------------- statement numbers

  predicate IsDigit(c: char) { '0' <= c <= '9' }

  /** The number that a text of digits stands for. */
  function Read(s: string): int
  {
    if s == "" then 0 else 10 * Read(s[..|s| - 1]) + (s[|s| - 1] as int - '0' as int)
  }

  lemma ReadSnoc(s: string, c: char)
    ensures Read(s + [c]) == 10 * Read(s) + (c as int - '0' as int)
  {
    assert (s + [c])[..|s|] == s;
  }

  /** An unnamed statement is numbered in decimal, without leading zeros, so no two positions
      share a number. */
  lemma {:induction false} DecimalReads(n: nat)
    ensures Read(Decimal(n)) == n
    ensures forall i :: 0 <= i < |Decimal(n)| ==> IsDigit(Decimal(n)[i])
    ensures n > 0 ==> Decimal(n)[0] != '0'
  {
    if n < 10 {
      assert Decimal(n) == "" + [('0' as int + n) as char];
      ReadSnoc("", ('0' as int + n) as char);
    } else {
      DecimalReads(n / 10);
      ReadSnoc(Decimal(n / 10), ('0' as int + n % 10) as char);
    }
  }

  // ---------------------------------------------------------------- segments

  function Join(parts: seq<string>): string
  {
    if |parts| == 0 then "" else if |parts| == 1 then parts[0] else parts[0] + "/" + Join(parts[1..])
  }

  /** Splitting a resource into segments loses nothing, and no segment contains a slash. */
  lemma {:induction false} SplitJoins(s: string)
    ensures Join(Split(s)) == s
    ensures forall i :: 0 <= i < |Split(s)| ==> '/' !in Split(s)[i]
  {
    if s != "" {
      SplitJoins(s[1..]);
      var parts, rest := Split(s), Split(s[1..]);
      assert s == [s[0]] + s[1..];
      if s[0] == '/' {
        assert parts[1..] == rest;
      } else {
        assert parts[0] == [s[0]] + rest[0] && parts[1..] == rest[1..];
        assert forall i :: 0 < i < |parts| ==> parts[i] == rest[i];
        if |parts| > 1 {
          Reassociate([s[0]], rest[0] + "/", Join(rest[1..]));
          Reassociate([s[0]], rest[0], "/");
        }
      }
    }
  }

  /** The shared segments are the leading ones that match one by one, up to the first that does
      not. */
  lemma {:induction false} SharedMeaning(p: seq<string>, r: seq<string>)
    ensures forall i :: 0 <= i < Shared(p, r) ==> GlobMatch(p[i], r[i])
    ensures var n := Shared(p, r); n < |p| && n < |r| ==> !GlobMatch(p[n], r[n])
  {
    if p != [] && r != [] && GlobMatch(p[0], r[0]) {
      SharedMeaning(p[1..], r[1..]);
      forall i | 0 <= i < Shared(p, r)
        ensures GlobMatch(p[i], r[i])
      {
        if i > 0 {
          assert p[i] == p[1..][i - 1] && r[i] == r[1..][i - 1];
        }
      }
    }
  }

  // ---------------------------------------------------------------- scores

  lemma ShareInUnit(a: nat, b: nat)
    requires a <= b && b > 0
    ensures 0.0 <= a as real / b as real <= 1.0
  {
  }

  lemma OverlapInUnit(pattern: string, resource: string)
    ensures 0.0 <= SegmentOverlap(pattern, resource) <= 1.0
    ensures GlobMatch(pattern, resource) ==> SegmentOverlap(pattern, resource) == 1.0
  {
    if !GlobMatch(pattern, resource) {
      var p, r := Split(pattern), Split(resource);
      ShareInUnit(Shared(p, r), Max(|p|, |r|));
    }
  }

  /** The overlap of a statement is the best of its resource patterns. */
  lemma {:induction false} OverlapIsBest(resources: seq<string>, req: Request)
    requires forall r :: r in resources ==> Expanded(r, req.attributes, true) != ""
    ensures var o := Overlap(resources, req).0;
            && 0.0 <= o <= 1.0
            && (forall r :: r in resources ==> SegmentOverlap(Expanded(r, req.attributes, true), req.resource) <= o)
            && (resources != [] ==>
                  exists r :: r in resources && SegmentOverlap(Expanded(r, req.attributes, true), req.resource) == o)
    ensures resources != [] ==> Overlap(resources, req).1 != ""
  {
    if resources != [] {
      var n := |resources| - 1;
      OverlapIsBest(resources[..n], req);
      assert resources == resources[..n] + [resources[n]] && resources[n] in resources;
      OverlapInUnit(Expanded(resources[n], req.attributes, true), req.resource);
      if n == 0 {
        assert resources[..n] == [];
      }
    }
  }

  lemma NoByte()
    ensures SegmentOverlap("b", "") == 0.0 && SegmentOverlap("", "") == 1.0
  {
    assert "b"[1..] == "" && Tokens("b") == [Lit('b')] && !GlobMatch("b", "");
    assert Split("b")[0] == ['b'] + Split("b"[1..])[0] == "b";
    SharesIff("b", "");
  }

  /** A pattern that expands to nothing makes the loop forget it: the next pattern replaces its
      overlap even with a smaller one. */
  lemma EmptyForgets(req: Request)
    requires "a" in req.attributes && req.attributes["a"] == "" && req.resource == ""
    ensures SegmentOverlap(Expanded("{a}", req.attributes, true), "") == 1.0 && Overlap(["{a}", "b"], req).0 == 0.0
  {
    ReplacesReference("a", "", req.attributes, true);
    assert "{" + "a" + "}" + "" == "{a}" && Expanded("{a}", req.attributes, true) == "";
    ExpandedPlain("b", req.attributes, true);
    NoByte();
    var rs := ["{a}", "b"];
    assert rs[..1] == ["{a}"] && rs[..1][..0] == [];
    assert Overlap(rs[..1], req) == (1.0, "");
  }

  lemma RoundedClose(x: real)
    requires 0.0 <= x <= 1.0
    ensures x - 0.005 <= Rounded(x) <= x + 0.005 && 0.0 <= Rounded(x) <= 1.0
    ensures (Rounded(x) * 100.0).Floor as real == Rounded(x) * 100.0
  {
    var k := (x * 100.0 + 0.5).Floor;
    assert k as real <= x * 100.0 + 0.5 < k as real + 1.0;
    assert 0 <= k <= 100;
    assert Rounded(x) * 100.0 == k as real;
  }

  /** The score is 0.6 times the overlap plus 0.4 for a matching action, to two places and within
      0 and 1; a statement that fails on a condition only scores 0.9. */
  lemma ScoreMeaning(resourceOk: bool, actionOk: bool, overlap: real)
    requires 0.0 <= overlap <= 1.0
    ensures var exact := 0.6 * overlap + if actionOk then 0.4 else 0.0;
            var score := ScoreOf(resourceOk, actionOk, overlap);
            && 0.0 <= score <= 1.0 && (score * 100.0).Floor as real == score * 100.0
            && (resourceOk && actionOk ==> score == 0.9)
            && (!(resourceOk && actionOk) ==> exact - 0.005 <= score <= exact + 0.005)
  {
    if resourceOk && actionOk {
      assert (0.9 * 100.0 + 0.5).Floor == 90;
    } else {
      RoundedClose(0.6 * overlap + if actionOk then 0.4 else 0.0);
    }
  }

  // ---------------------------------------------------------------- near misses

  /** The pattern covers the resource, or at least its first segment. */
  ghost predicate Shares(pattern: string, resource: string)
  {
    GlobMatch(pattern, resource) || GlobMatch(Split(pattern)[0], Split(resource)[0])
  }

  lemma SharesIff(pattern: string, resource: string)
    ensures SegmentOverlap(pattern, resource) != 0.0 <==> Shares(pattern, resource)
  {
    if !GlobMatch(pattern, resource) {
      var p, r := Split(pattern), Split(resource);
      var n, d := Shared(p, r), Max(|p|, |r|);
      assert n > 0 <==> GlobMatch(p[0], r[0]);
      Quotient(n, d);
    }
  }

  lemma Quotient(n: nat, d: nat)
    requires d > 0
    ensures n as real / d as real == 0.0 <==> n == 0
  {
    assert n as real / d as real * d as real == n as real;
  }

  /** A near miss is a statement that could grant something and does not match, whose action
      matches or whose resource covers at least the first segment. */
  lemma CandidateIff(lib: Library, req: Request, l: Located)
    requires forall r :: r in l.stmt.resources ==> Expanded(r, req.attributes, true) != ""
    ensures Candidate(lib, req, l) <==>
            && l.stmt.effect != Deny && !StatementMatches(lib, l.stmt, req)
            && (|| (exists a :: a in l.stmt.actions && GlobMatch(a, req.action))
                || exists r :: r in l.stmt.resources && Shares(Expanded(r, req.attributes, true), req.resource))
  {
    OverlapIsBest(l.stmt.resources, req);
    CoversIff(l.stmt.actions, req.action);
    forall r
      ensures SegmentOverlap(Expanded(r, req.attributes, true), req.resource) != 0.0 <==>
              Shares(Expanded(r, req.attributes, true), req.resource)
    {
      SharesIff(Expanded(r, req.attributes, true), req.resource);
    }
    forall r | r in l.stmt.resources
      ensures SegmentOverlap(Expanded(r, req.attributes, true), req.resource) >= 0.0
    {
      OverlapInUnit(Expanded(r, req.attributes, true), req.resource);
    }
  }

  lemma CoversIff(patterns: seq<string>, s: string)
    ensures Covers(patterns, s) <==> exists p :: p in patterns && GlobMatch(p, s)
  {
    if Covers(patterns, s) {
      var i :| 0 <= i < |patterns| && GlobMatch(patterns[i], s);
      assert patterns[i] in patterns;
    }
  }

  /** The report says what differed: the resource, the action, or neither, which leaves a
      condition. */
  lemma ReportMeaning(req: Request, l: Located)
    ensures var m := Report(req, l).mismatch;
            && (MismatchResource in m <==> !MatchesResource(l.stmt, req, false))
            && (MismatchAction in m <==> !exists a :: a in l.stmt.actions && GlobMatch(a, req.action))
            && (MismatchCondition in m <==> MismatchResource !in m && MismatchAction !in m)
  {
    CoversIff(l.stmt.actions, req.action);
  }
}
