/**
 Explanations of a decision: the statement that decided, the conditions checked, and
 the closest statements that almost allowed. Agreement with the evaluator is proved.
 Human-readable detail and hint texts are left out.
 */
module PolicyExplain {
  import opened Options
  import opened Orders
  import opened Lists
  import opened Glob
  import opened PolicyModel
  import opened PolicyEval
  import opened Taint

  const MAX_NEAR_MISSES := 3

  datatype Mismatch = MismatchResource | MismatchAction | MismatchCondition

  datatype ConditionResult = ConditionResult(policyId: string, statementId: string, cond: Condition, passed: bool)

  datatype NearMiss = NearMiss(policyId: string, statementId: string, mismatch: seq<Mismatch>, score: real)

  datatype Matched = Matched(policyId: string, statementId: string, effect: Effect)

  datatype Explanation = Explanation(
    decision: Decision, code: Code, matched: Option<Matched>,
    conditions: seq<ConditionResult>, nearMisses: seq<NearMiss>)

  // ---------------------------------------------------------------- the deciding statement

  /** A statement carries the decision's ids and matches the request; ids alone need
      not be unique. */
  ghost function NamedBy(lib: Library, req: Request, d: Decision): Located -> bool
  {
    (l: Located) => l.policyId == d.policyId && StatementId(l) == d.statementId && StatementMatches(lib, l.stmt, req)
  }

  method FindInPolicy(lib: Library, req: Request, d: Decision, p: Policy) returns (r: Option<Located>)
    ensures r == FirstWhere(LocateAll(p), NamedBy(lib, req, d))
  {
    var ls := LocateAll(p);
    ghost var hit := NamedBy(lib, req, d);
    for i := 0 to |ls|
      invariant FirstWhere(ls[..i], hit).None?
    {
      FirstWhereSnoc(ls, i, hit);
      if p.id == d.policyId && StatementId(ls[i]) == d.statementId {
        var m := CheckStatement(lib, ls[i].stmt, req);
        if m {
          FirstWherePrefix(ls, i + 1, hit);
          return Some(ls[i]);
        }
      }
    }
    assert ls[..|ls|] == ls;
    return None;
  }

  method FindDecided(lib: Library, req: Request, d: Decision, policies: seq<Option<Policy>>)
    returns (r: Option<Located>)
    ensures r == FirstWhere(Flatten(policies), NamedBy(lib, req, d))
  {
    ghost var hit := NamedBy(lib, req, d);
    for k := 0 to |policies|
      invariant FirstWhere(Flatten(policies[..k]), hit).None?
    {
      FlattenSnoc(policies, k, hit);
      if policies[k].Some? {
        r := FindInPolicy(lib, req, d, policies[k].value);
        if r.Some? {
          FlattenPrefix(policies, k + 1, hit);
          return;
        }
      }
    }
    assert policies[..|policies|] == policies;
    return None;
  }

  // ---------------------------------------------------------------- near misses

  function Split(s: string): (parts: seq<string>)
    ensures |parts| > 0
  {
    if s == "" then [""]
    else
      var rest := Split(s[1..]);
      if s[0] == '/' then [""] + rest else [[s[0]] + rest[0]] + rest[1..]
  }

  /** Number of leading segments the pattern covers. */
  ghost function Shared(p: seq<string>, r: seq<string>): (n: nat)
    ensures n <= |p| && n <= |r|
  {
    if p == [] || r == [] || !GlobMatch(p[0], r[0]) then 0 else 1 + Shared(p[1..], r[1..])
  }

  function Max(a: nat, b: nat): nat { if a < b then b else a }

  ghost function SegmentOverlap(pattern: string, resource: string): real
  {
    if GlobMatch(pattern, resource) then 1.0
    else
      var p, r := Split(pattern), Split(resource);
      Shared(p, r) as real / Max(|p|, |r|) as real
  }

  /** The best overlap over the resource patterns, with the expansion it came from. */
  ghost function Overlap(resources: seq<string>, req: Request): (real, string)
  {
    if resources == [] then (0.0, "")
    else
      var n := |resources| - 1;
      var (overlap, best) := Overlap(resources[..n], req);
      var exp := Expanded(resources[n], req.attributes, true);
      var o := SegmentOverlap(exp, req.resource);
      if best == "" || o > overlap then (o, exp) else (overlap, best)
  }

  function Rounded(score: real): real { (score * 100.0 + 0.5).Floor as real / 100.0 }

  function MismatchOf(resourceOk: bool, actionOk: bool): seq<Mismatch>
  {
    (if resourceOk then [] else [MismatchResource])
    + (if actionOk then [] else [MismatchAction])
    + (if resourceOk && actionOk then [MismatchCondition] else [])
  }

  function ScoreOf(resourceOk: bool, actionOk: bool, overlap: real): real
  {
    Rounded(if resourceOk && actionOk then 0.9 else 0.6 * overlap + (if actionOk then 0.4 else 0.0))
  }

  /** An allow or escalate statement that did not match is a candidate when its action
      matched or its resource shares something with the request. */
  ghost predicate Candidate(lib: Library, req: Request, l: Located)
  {
    && l.stmt.effect != Deny && !StatementMatches(lib, l.stmt, req)
    && (Overlap(l.stmt.resources, req).0 != 0.0 || Covers(l.stmt.actions, req.action))
  }

  ghost function Report(req: Request, l: Located): NearMiss
  {
    var r, a := MatchesResource(l.stmt, req, false), Covers(l.stmt.actions, req.action);
    NearMiss(l.policyId, StatementId(l), MismatchOf(r, a), ScoreOf(r, a, Overlap(l.stmt.resources, req).0))
  }

  ghost function NearMissOf(lib: Library, req: Request): Located -> seq<NearMiss>
  {
    (l: Located) => if Candidate(lib, req, l) then [Report(req, l)] else []
  }

  ghost function Candidates(lib: Library, req: Request, ls: seq<Located>): seq<NearMiss>
  {
    FlatMap(ls, NearMissOf(lib, req))
  }

  predicate Better(a: NearMiss, b: NearMiss) { a.score > b.score }

  function Best(found: seq<NearMiss>): seq<NearMiss>
  {
    var sorted := Sort(found, Better);
    if |sorted| > MAX_NEAR_MISSES then sorted[..MAX_NEAR_MISSES] else sorted
  }

  lemma {:induction false} SharedStep(p: seq<string>, r: seq<string>, n: nat)
    requires n <= |p| && n <= |r|
    ensures Shared(p[n..], r[n..]) ==
            if n < |p| && n < |r| && GlobMatch(p[n], r[n]) then 1 + Shared(p[n + 1..], r[n + 1..]) else 0
  {
    if n < |p| && n < |r| {
      assert p[n..][1..] == p[n + 1..] && r[n..][1..] == r[n + 1..];
    }
  }

  method CheckOverlap(pattern: string, resource: string) returns (o: real)
    ensures o == SegmentOverlap(pattern, resource)
  {
    var m, _ := Match(pattern, resource);
    if m {
      return 1.0;
    }
    var p, r := Split(pattern), Split(resource);
    var shared := 0;
    assert p[0..] == p && r[0..] == r;
    while shared < |p| && shared < |r|
      invariant 0 <= shared <= |p| && shared <= |r|
      invariant Shared(p, r) == shared + Shared(p[shared..], r[shared..])
    {
      SharedStep(p, r, shared);
      var same, _ := Match(p[shared], r[shared]);
      if !same {
        break;
      }
      shared := shared + 1;
    }
    SharedStep(p, r, shared);
    return shared as real / Max(|p|, |r|) as real;
  }

  method BestOverlap(resources: seq<string>, req: Request) returns (overlap: real, best: string)
    ensures (overlap, best) == Overlap(resources, req)
  {
    overlap, best := 0.0, "";
    for i := 0 to |resources|
      invariant (overlap, best) == Overlap(resources[..i], req)
    {
      assert resources[..i + 1][..i] == resources[..i];
      var exp, _ := Expand(resources[i], req.attributes, true);
      var o := CheckOverlap(exp, req.resource);
      if best == "" || o > overlap {
        overlap, best := o, exp;
      }
    }
    assert resources[..|resources|] == resources;
  }

  method CheckNearMiss(lib: Library, req: Request, l: Located) returns (found: seq<NearMiss>)
    ensures found == NearMissOf(lib, req)(l)
  {
    var m := CheckStatement(lib, l.stmt, req);
    if l.stmt.effect == Deny || m {
      return [];
    }
    var actionOk := AnyMatch(l.stmt.actions, req.action);
    var resourceOk := CheckResource(l.stmt, req, false);
    var overlap, _ := BestOverlap(l.stmt.resources, req);
    if overlap == 0.0 && !actionOk {
      return [];
    }
    return [NearMiss(l.policyId, StatementId(l), MismatchOf(resourceOk, actionOk),
                     ScoreOf(resourceOk, actionOk, overlap))];
  }

  ghost function PolicyNearMisses(lib: Library, req: Request): Option<Policy> -> seq<NearMiss>
  {
    (p: Option<Policy>) => if p.Some? then Candidates(lib, req, LocateAll(p.value)) else []
  }

  method PolicyCandidates(lib: Library, req: Request, p: Policy) returns (found: seq<NearMiss>)
    ensures found == Candidates(lib, req, LocateAll(p))
  {
    var ls := LocateAll(p);
    ghost var piece := NearMissOf(lib, req);
    found := [];
    for i := 0 to |ls|
      invariant found == FlatMap(ls[..i], piece)
    {
      FlatMapSnoc(ls, i, piece);
      var f := CheckNearMiss(lib, req, ls[i]);
      found := found + f;
    }
    assert ls[..|ls|] == ls;
  }

  method NearMisses(lib: Library, req: Request, policies: seq<Option<Policy>>) returns (r: seq<NearMiss>)
    ensures r == Best(Candidates(lib, req, Flatten(policies)))
  {
    ghost var piece := PolicyNearMisses(lib, req);
    FlatMapFlatMap(policies, Place(), NearMissOf(lib, req), piece);
    var found: seq<NearMiss> := [];
    for k := 0 to |policies|
      invariant found == FlatMap(policies[..k], piece)
    {
      FlatMapSnoc(policies, k, piece);
      if policies[k].Some? {
        var f := PolicyCandidates(lib, req, policies[k].value);
        found := found + f;
      }
    }
    assert policies[..|policies|] == policies;
    r := Best(found);
  }

  // ---------------------------------------------------------------- explain

  ghost function Result(lib: Library, req: Request, policyId: string, statementId: string)
    : Condition -> seq<ConditionResult>
  {
    (c: Condition) => [ConditionResult(policyId, statementId, c, Holds(lib, c, req))]
  }

  /** A failed condition as it is reported. */
  function AsResult(f: Failure): ConditionResult
  {
    ConditionResult(f.at.policyId, StatementId(f.at), f.cond, false)
  }

  function AsResults(fs: seq<Failure>): (rs: seq<ConditionResult>)
    ensures |rs| == |fs| && forall i :: 0 <= i < |fs| ==> rs[i] == AsResult(fs[i])
  {
    seq(|fs|, i requires 0 <= i < |fs| => AsResult(fs[i]))
  }

  /** A request without a time of its own gets a second clock reading, `again`, for the
      reasoning. */
  ghost function Explained(e: Evaluator, req: Request, again: int, policies: seq<Option<Policy>>): Explanation
  {
    var d, late := Decided(e, req, policies), req.(now := again);
    if d.statementId != "" then
      var l := FirstWhere(Flatten(policies), NamedBy(e.lib, late, d));
      Explanation(d, d.code, Some(Matched(d.policyId, d.statementId, if d.effect.Some? then d.effect.value else Allow)),
                  if l.None? then []
                  else FlatMap(l.value.stmt.conditions, Result(e.lib, late, l.value.policyId, d.statementId)),
                  [])
    else if d.effect.Some? || d.allowed then Explanation(d, d.code, None, [], [])
    else
      Explanation(d, d.code, None, AsResults(Failures(e.lib, late, Flatten(policies))),
                  Best(Candidates(e.lib, late, Flatten(policies))))
  }

  method CheckedConditions(lib: Library, req: Request, policyId: string, statementId: string, cs: seq<Condition>)
    returns (rs: seq<ConditionResult>)
    ensures rs == FlatMap(cs, Result(lib, req, policyId, statementId))
  {
    rs := [];
    ghost var piece := Result(lib, req, policyId, statementId);
    for i := 0 to |cs|
      invariant rs == FlatMap(cs[..i], piece)
    {
      FlatMapSnoc(cs, i, piece);
      var ok := CheckCondition(lib, cs[i], req);
      rs := rs + [ConditionResult(policyId, statementId, cs[i], ok)];
    }
    assert cs[..|cs|] == cs;
  }

  method StatementFailures(lib: Library, req: Request, l: Located) returns (fs: seq<Failure>)
    ensures fs == FailuresOf(lib, req)(l)
  {
    fs := [];
    var target := CheckTarget(l.stmt, req);
    if l.stmt.effect != Allow || !target {
      return;
    }
    var cs := l.stmt.conditions;
    ghost var piece := Failed(lib, req, l);
    for i := 0 to |cs|
      invariant fs == FlatMap(cs[..i], piece)
    {
      FlatMapSnoc(cs, i, piece);
      var ok := CheckCondition(lib, cs[i], req);
      if !ok {
        fs := fs + [Failure(l, cs[i])];
      }
    }
    assert cs[..|cs|] == cs;
  }

  method PolicyFailureList(lib: Library, req: Request, p: Policy) returns (fs: seq<Failure>)
    ensures fs == Failures(lib, req, LocateAll(p))
  {
    var ls := LocateAll(p);
    ghost var piece := FailuresOf(lib, req);
    fs := [];
    for i := 0 to |ls|
      invariant fs == FlatMap(ls[..i], piece)
    {
      FlatMapSnoc(ls, i, piece);
      var f := StatementFailures(lib, req, ls[i]);
      fs := fs + f;
    }
    assert ls[..|ls|] == ls;
  }

  method AllFailures(lib: Library, req: Request, policies: seq<Option<Policy>>) returns (fs: seq<Failure>)
    ensures fs == Failures(lib, req, Flatten(policies))
  {
    FailuresByPolicy(lib, req, policies);
    ghost var piece := PolicyFailures(lib, req);
    fs := [];
    for k := 0 to |policies|
      invariant fs == FlatMap(policies[..k], piece)
    {
      FlatMapSnoc(policies, k, piece);
      if policies[k].Some? {
        var f := PolicyFailureList(lib, req, policies[k].value);
        fs := fs + f;
      }
    }
    assert policies[..|policies|] == policies;
  }

  /** Evaluates exactly as the evaluator does and adds the reasoning. */
  method Explain(e: Evaluator, req: Request, again: int, policies: seq<Option<Policy>>) returns (x: Explanation)
    ensures x == Explained(e, req, again, policies)
  {
    var d := Evaluate(e, req, policies);
    var late := req.(now := again);
    if d.statementId != "" {
      var l := FindDecided(e.lib, late, d, policies);
      var rs := [];
      if l.Some? {
        rs := CheckedConditions(e.lib, late, l.value.policyId, d.statementId, l.value.stmt.conditions);
      }
      var effect := if d.effect.Some? then d.effect.value else Allow;
      return Explanation(d, d.code, Some(Matched(d.policyId, d.statementId, effect)), rs, []);
    }
    if d.effect.Some? || d.allowed {
      return Explanation(d, d.code, None, [], []);
    }
    var fs := AllFailures(e.lib, late, policies);
    var near := NearMisses(e.lib, late, policies);
    return Explanation(d, d.code, None, AsResults(fs), near);
  }

  // ---------------------------------------------------------------- agreement

  /** Taint keeps the ids of a decision, and whether a statement decided. */
  lemma TaintKeepsIds(e: Evaluator, v: Option<TaintVerdict>, b: Decision)
    requires b.allowed ==> b.effect.Some?
    ensures var d := ApplyTaint(e, v, b);
            && d.policyId == b.policyId && d.statementId == b.statementId && (d.effect.Some? <==> b.effect.Some?)
            && (d.effect.None? ==> d == b)
  {
  }

  lemma HitIsMember(ls: seq<Located>, hit: Located -> bool)
    requires FirstWhere(ls, hit).Some?
    ensures FirstWhere(ls, hit).value in ls && hit(FirstWhere(ls, hit).value)
  {
    FirstWhereMeaning(ls, hit);
  }

  ghost predicate DecidedIn(lib: Library, req: Request, ls: seq<Located>, d: Decision, l: Located)
  {
    l in ls && l.policyId == d.policyId && StatementId(l) == d.statementId && StatementMatches(lib, l.stmt, req)
  }

  /** A decision by statements names a matching statement, also after risk. */
  lemma DecideNames(e: Evaluator, req: Request, ls: seq<Located>)
    ensures var d := Decide(e, req, ls);
            && (d.effect.Some? <==> d.statementId != "")
            && (d.effect.Some? ==> exists l :: DecidedIn(e.lib, req, ls, d, l))
  {
    var d := Decide(e, req, ls);
    var hd, he, ha := Hits(e.lib, req, Deny), Hits(e.lib, req, Escalate), Hits(e.lib, req, Allow);
    if FirstWhere(ls, hd).Some? {
      HitIsMember(ls, hd);
      assert DecidedIn(e.lib, req, ls, d, FirstWhere(ls, hd).value);
    } else if FirstWhere(ls, he).Some? {
      HitIsMember(ls, he);
      assert DecidedIn(e.lib, req, ls, d, FirstWhere(ls, he).value);
    } else if FirstWhere(ls, ha).Some? {
      HitIsMember(ls, ha);
      assert DecidedIn(e.lib, req, ls, d, FirstWhere(ls, ha).value);
    }
  }

  /** Risk and taint keep the ids of the statement that matched. */
  lemma DecidedByMatch(e: Evaluator, req: Request, policies: seq<Option<Policy>>)
    ensures var d := Decided(e, req, policies);
            && (d.statementId != "" <==> d.effect.Some?)
            && (d.effect.Some? ==> exists l :: l in Flatten(policies) && NamedBy(e.lib, req, d)(l))
  {
    var b := Decide(e, req, Flatten(policies));
    DecideMeaning(e, req, policies);
    TaintKeepsIds(e, TaintOutcome(e.taint, req, LabelSets(req.provenance)), b);
    DecideNames(e, req, Flatten(policies));
    if b.effect.Some? {
      var l :| DecidedIn(e.lib, req, Flatten(policies), b, l);
      assert NamedBy(e.lib, req, Decided(e, req, policies))(l);
    }
  }

  /** The statement that the explanation finds for a decision. */
  ghost function Found(e: Evaluator, req: Request, again: int, policies: seq<Option<Policy>>): Option<Located>
  {
    FirstWhere(Flatten(policies), NamedBy(e.lib, req.(now := again), Decided(e, req, policies)))
  }

  /** Whenever a statement decided, also after risk or taint changed the outcome, every condition
      the explanation reports passed. It finds a statement exactly when one with the ids of the
      decision matches at the second clock reading; with one reading it always does. */
  lemma ExplainsMatch(e: Evaluator, req: Request, again: int, policies: seq<Option<Policy>>)
    requires Decided(e, req, policies).effect.Some?
    ensures forall r :: r in Explained(e, req, again, policies).conditions ==> r.passed
    ensures var d, late := Decided(e, req, policies), req.(now := again);
            Found(e, req, again, policies).Some? <==> exists l :: l in Flatten(policies) && NamedBy(e.lib, late, d)(l)
    ensures again == req.now ==> Found(e, req, again, policies).Some?
  {
    var d, late := Decided(e, req, policies), req.(now := again);
    var hit := NamedBy(e.lib, late, d);
    DecidedByMatch(e, req, policies);
    FirstWhereMeaning(Flatten(policies), hit);
    if FirstWhere(Flatten(policies), hit).Some? {
      ConditionsPassed(e.lib, late, FirstWhere(Flatten(policies), hit).value, d.statementId);
    }
    assert again == req.now ==> late == req;
  }

  /** The conditions of a matching statement are reported as passed. */
  lemma ConditionsPassed(lib: Library, req: Request, l: Located, id: string)
    requires StatementMatches(lib, l.stmt, req)
    ensures forall r :: r in FlatMap(l.stmt.conditions, Result(lib, req, l.policyId, id)) ==> r.passed
  {
    var piece := Result(lib, req, l.policyId, id);
    forall r: ConditionResult | r in FlatMap(l.stmt.conditions, piece)
      ensures r.passed
    {
      FlatMapMember(l.stmt.conditions, piece, r);
      var c :| c in l.stmt.conditions && r in piece(c);
      assert Holds(lib, c, req);
    }
  }

  lemma FailedFails(lib: Library, req: Request, l: Located, cs: seq<Condition>, f: Failure)
    requires f in FlatMap(cs, Failed(lib, req, l))
    ensures f.at == l && f.cond in cs && !Holds(lib, f.cond, req)
  {
    var piece := Failed(lib, req, l);
    FlatMapMember(cs, piece, f);
    var c :| c in cs && f in piece(c);
  }

  lemma FailuresFail(lib: Library, req: Request, ls: seq<Located>, f: Failure)
    requires f in Failures(lib, req, ls)
    ensures f.at in ls && f.cond in f.at.stmt.conditions && !Holds(lib, f.cond, req)
  {
    var piece := FailuresOf(lib, req);
    FlatMapMember(ls, piece, f);
    var l :| l in ls && f in piece(l);
    FailedFails(lib, req, l, l.stmt.conditions, f);
  }

  /** The class of the first reported condition about the address or the time. */
  ghost function FirstClass(rs: seq<ConditionResult>): Code
  {
    if rs == [] then NoPermission
    else if ClassOf(rs[0].cond.op).Some? then ClassOf(rs[0].cond.op).value
    else FirstClass(rs[1..])
  }

  lemma {:induction false} FirstClassAgrees(fs: seq<Failure>)
    ensures FirstClass(AsResults(fs)) == CodeOf(FirstWhere(fs, Classified()))
  {
    if fs != [] {
      assert fs == [fs[0]] + fs[1..];
      FirstWhereConcat([fs[0]], fs[1..], Classified());
      assert FirstWhere([fs[0]], Classified()) == if ClassOf(fs[0].cond.op).Some? then Some(fs[0]) else None;
      assert AsResults(fs)[1..] == AsResults(fs[1..]);
      FirstClassAgrees(fs[1..]);
      FirstWhereMeaning(fs[1..], Classified());
    }
  }

  lemma DefaultDenyExplained(e: Evaluator, req: Request, again: int, policies: seq<Option<Policy>>)
    requires Decided(e, req, policies).effect.None?
    ensures var x, late := Explained(e, req, again, policies), req.(now := again);
            && x.matched.None? && x.conditions == AsResults(Failures(e.lib, late, Flatten(policies)))
            && x.decision == Decided(e, req, policies)
            && x.code == x.decision.code == DenyCode(e.lib, req, Flatten(policies))
  {
    DecidedByMatch(e, req, policies);
    EvaluateMeaning(e, req, policies);
    var b := Decide(e, req, Flatten(policies));
    DecideMeaning(e, req, policies);
    TaintKeepsIds(e, TaintOutcome(e.taint, req, LabelSets(req.provenance)), b);
    assert b == DefaultDeny(DenyCode(e.lib, req, Flatten(policies)));
  }

  /** On a default deny every reported condition failed, and nothing is reported as matched. The
      first address or time entry of the list has the class that a decision at the second clock
      reading would have; with one reading that is the class of this decision. */
  lemma ExplainsDefaultDeny(e: Evaluator, req: Request, again: int, policies: seq<Option<Policy>>)
    requires Decided(e, req, policies).effect.None?
    ensures var x, late := Explained(e, req, again, policies), req.(now := again);
            && x.matched.None?
            && (forall r :: r in x.conditions ==> !r.passed && !Holds(e.lib, r.cond, late))
            && x.code == x.decision.code
            && FirstClass(x.conditions) == DenyCode(e.lib, late, Flatten(policies))
            && (again == req.now ==> x.code == FirstClass(x.conditions))
  {
    var late := req.(now := again);
    DefaultDenyExplained(e, req, again, policies);
    ReportedFail(e.lib, late, Flatten(policies));
    FirstClassAgrees(Failures(e.lib, late, Flatten(policies)));
    assert again == req.now ==> late == req;
  }

  lemma ReportedFail(lib: Library, req: Request, ls: seq<Located>)
    ensures forall r :: r in AsResults(Failures(lib, req, ls)) ==> !r.passed && !Holds(lib, r.cond, req)
  {
    var fs := Failures(lib, req, ls);
    forall r | r in AsResults(fs)
      ensures !r.passed && !Holds(lib, r.cond, req)
    {
      var i :| 0 <= i < |fs| && AsResults(fs)[i] == r;
      FailuresFail(lib, req, ls, fs[i]);
    }
  }

  // ---------------------------------------------------------------- ranking

  ghost predicate Ranked(q: seq<NearMiss>)
  {
    forall i, j :: 0 <= i < j < |q| ==> q[i].score >= q[j].score
  }

  lemma {:induction false} InsertKeeps(x: NearMiss, q: seq<NearMiss>)
    ensures multiset(Insert(x, q, Better)) == multiset(q) + multiset{x}
  {
    if q != [] {
      assert q == [q[0]] + q[1..];
      InsertKeeps(x, q[1..]);
    }
  }

  lemma {:induction false} InsertRanked(x: NearMiss, q: seq<NearMiss>)
    requires Ranked(q)
    ensures Ranked(Insert(x, q, Better))
  {
    if q != [] && Better(q[0], x) {
      InsertRanked(x, q[1..]);
      var t := Insert(x, q[1..], Better);
      forall j | 0 <= j < |t|
        ensures q[0].score >= t[j].score
      {
        InsertKeeps(x, q[1..]);
        assert t[j] in multiset(t);
        if t[j] != x {
          assert t[j] in q[1..];
        }
      }
    }
  }

  lemma {:induction false} SortRanked(q: seq<NearMiss>)
    ensures Ranked(Sort(q, Better)) && multiset(Sort(q, Better)) == multiset(q)
  {
    if q != [] {
      SortRanked(q[1..]);
      InsertRanked(q[0], Sort(q[1..], Better));
      InsertKeeps(q[0], Sort(q[1..], Better));
      assert q == [q[0]] + q[1..];
    }
  }

  /** The report keeps the best candidates: at most three, best first, and no candidate
      left out scores higher than one that is reported. */
  lemma BestIsTop(found: seq<NearMiss>)
    ensures var best := Best(found);
            && |best| == (if |found| < 3 then |found| else 3) && Ranked(best)
            && (forall m :: m in best ==> m in found)
            && forall m :: m in found ==> m in best || forall b :: b in best ==> b.score >= m.score
  {
    var sorted, best := Sort(found, Better), Best(found);
    SortRanked(found);
    assert |multiset(sorted)| == |sorted| && |multiset(found)| == |found|;
    forall m | m in best
      ensures m in found
    {
      assert m in multiset(sorted);
      assert m in multiset(found);
    }
    forall m | m in found
      ensures m in best || forall b :: b in best ==> b.score >= m.score
    {
      assert m in multiset(found);
      assert m in multiset(sorted);
      var i :| 0 <= i < |sorted| && sorted[i] == m;
    }
  }

  /** Every near miss reports an allow or escalate statement that did not match. */
  lemma NearMissIsMiss(lib: Library, req: Request, ls: seq<Located>, m: NearMiss)
    requires m in Best(Candidates(lib, req, ls))
    ensures exists l :: l in ls && l.stmt.effect != Deny && !StatementMatches(lib, l.stmt, req) && m == Report(req, l)
  {
    BestIsTop(Candidates(lib, req, ls));
    var piece := NearMissOf(lib, req);
    FlatMapMember(ls, piece, m);
    var l :| l in ls && m in piece(l);
    assert Candidate(lib, req, l);
  }
}
