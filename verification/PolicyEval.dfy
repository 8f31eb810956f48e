/**
 The policy evaluator: explicit deny, then escalate, then allow tightened by risk tiers
 and taint rules, otherwise default deny; and permission boundaries.

 The loops report first matches. `Outcome` says what they decide without any order.
 */
module PolicyEval {
  import opened Options
  import opened Orders
  import opened Lists
  import opened PolicyModel
  import opened Taint

  // ---------------------------------------------------------------- risk tiers

  datatype RiskTier = RiskTier(
    name: string, minAmount: real, currency: string, dataClasses: seq<string>,
    irreversible: Option<bool>, require: Requirement)

  predicate TierMatches(t: RiskTier, req: Request)
  {
    && (t.minAmount > 0.0 ==> req.amount >= t.minAmount)
    && (t.currency != "" ==> t.currency == req.currency)
    && (t.dataClasses != [] ==> req.dataClass in t.dataClasses)
    && (t.irreversible.Some? ==> t.irreversible.value == req.irreversible)
  }

  function Strength(r: Requirement): nat { match r case StepUp => 2 case Approval => 1 case _ => 0 }

  /** i is the first of the strongest matching tiers. */
  predicate IsStrongest(risk: seq<RiskTier>, req: Request, i: nat)
  {
    && i < |risk| && TierMatches(risk[i], req)
    && forall j :: 0 <= j < |risk| && TierMatches(risk[j], req) ==>
         && Strength(risk[j].require) <= Strength(risk[i].require)
         && (j < i ==> Strength(risk[j].require) < Strength(risk[i].require))
  }

  predicate Demands(t: RiskTier, req: Request) { TierMatches(t, req) && Strength(t.require) > 0 }

  /** The tier that tightens an allow: the first of the strongest matching tiers, when
      it demands anything. */
  ghost function RiskOf(risk: seq<RiskTier>, req: Request): Option<RiskTier>
  {
    if exists i: nat :: IsStrongest(risk, req, i) && Demands(risk[i], req)
    then var i: nat :| IsStrongest(risk, req, i) && Demands(risk[i], req); Some(risk[i])
    else None
  }

  method Classify(risk: seq<RiskTier>, req: Request) returns (r: Option<RiskTier>)
    ensures r == RiskOf(risk, req)
    ensures r.Some? <==> exists t :: t in risk && Demands(t, req)
  {
    var best, found := 0, false;
    for k := 0 to |risk|
      invariant !found ==> forall j :: 0 <= j < k ==> !TierMatches(risk[j], req)
      invariant found ==> best < k && IsStrongest(risk[..k], req, best)
    {
      if !TierMatches(risk[k], req) {
        continue;
      }
      if !found || Strength(risk[k].require) > Strength(risk[best].require) {
        best, found := k, true;
      }
    }
    assert risk[..|risk|] == risk;
    assert forall t :: t in risk ==> exists j :: 0 <= j < |risk| && risk[j] == t;
    if !found || Strength(risk[best].require) == 0 {
      return None;
    }
    assert IsStrongest(risk, req, best) && risk[best] in risk;
    return Some(risk[best]);
  }

  lemma {:induction false} StrongestExists(risk: seq<RiskTier>, req: Request)
    ensures (exists t :: t in risk && TierMatches(t, req)) ==> exists i: nat :: IsStrongest(risk, req, i)
  {
    if risk != [] {
      var n := |risk| - 1;
      StrongestExists(risk[..n], req);
      assert risk == risk[..n] + [risk[n]];
      if i: nat :| IsStrongest(risk[..n], req, i) {
        if TierMatches(risk[n], req) && Strength(risk[n].require) > Strength(risk[i].require) {
          assert IsStrongest(risk, req, n);
        } else {
          assert IsStrongest(risk, req, i);
        }
      } else {
        assert forall j :: 0 <= j < n ==> risk[..n][j] in risk[..n];
        if TierMatches(risk[n], req) {
          assert IsStrongest(risk, req, n);
        }
      }
    }
  }

  /** Whether risk tightens an allow does not depend on the order of the tiers. */
  lemma RiskMeaning(risk: seq<RiskTier>, req: Request)
    ensures RiskOf(risk, req).Some? <==> exists t :: t in risk && Demands(t, req)
  {
    StrongestExists(risk, req);
    if t :| t in risk && Demands(t, req) {
      var i: nat :| IsStrongest(risk, req, i);
      var j :| 0 <= j < |risk| && risk[j] == t;
      assert Demands(risk[i], req);
    }
  }

  // ---------------------------------------------------------------- decisions

  datatype Code = Allowed | NoPermission | IpNotAllowed | TimeRestricted
                | ApprovalRequired | TaintViolation | RiskEscalation

  datatype Escalation = Escalation(tier: string, requirement: Requirement)

  /** Reason texts are left out. A default deny has no effect and no statement. */
  datatype Decision = Decision(
    allowed: bool, effect: Option<Effect>, policyId: string, statementId: string,
    code: Code, boundary: bool, escalation: Option<Escalation>, taint: Option<TaintVerdict>)

  datatype Evaluator = Evaluator(lib: Library, risk: seq<RiskTier>, taint: seq<TaintRule>)

  function DenyBy(l: Located): Decision
  {
    Decision(false, Some(Deny), l.policyId, StatementId(l), NoPermission, false, None, None)
  }

  function EscalateBy(l: Located): Decision
  {
    var requirement := if l.stmt.require == Unset then Approval else l.stmt.require;
    Decision(false, Some(Escalate), l.policyId, StatementId(l), ApprovalRequired, false,
             Some(Escalation(l.stmt.tier, requirement)), None)
  }

  function AllowBy(l: Located): Decision
  {
    Decision(true, Some(Allow), l.policyId, StatementId(l), Allowed, false, None, None)
  }

  function DefaultDeny(code: Code): Decision
  {
    Decision(false, None, "", "", code, false, None, None)
  }

  ghost function Hits(lib: Library, req: Request, eff: Effect): Located -> bool
  {
    (l: Located) => l.stmt.effect == eff && StatementMatches(lib, l.stmt, req)
  }

  // ---------------------------------------------------------------- why a default deny

  datatype Failure = Failure(at: Located, cond: Condition)

  ghost function Failed(lib: Library, req: Request, l: Located): Condition -> seq<Failure>
  {
    (c: Condition) => if Holds(lib, c, req) then [] else [Failure(l, c)]
  }

  /** The conditions of an allow statement that covers the request but fail on it. */
  ghost function FailuresOf(lib: Library, req: Request): Located -> seq<Failure>
  {
    (l: Located) =>
      if l.stmt.effect == Allow && MatchesTarget(l.stmt, req)
      then FlatMap(l.stmt.conditions, Failed(lib, req, l)) else []
  }

  ghost function Failures(lib: Library, req: Request, ls: seq<Located>): seq<Failure>
  {
    FlatMap(ls, FailuresOf(lib, req))
  }

  function ClassOf(op: Op): Option<Code>
  {
    if op == IpCidr || op == NotIpCidr then Some(IpNotAllowed)
    else if op == TimeWindow || op == DailyWindow then Some(TimeRestricted)
    else None
  }

  function Classified(): Failure -> bool { (f: Failure) => ClassOf(f.cond.op).Some? }

  function CodeOf(f: Option<Failure>): Code
  {
    if f.Some? && ClassOf(f.value.cond.op).Some? then ClassOf(f.value.cond.op).value else NoPermission
  }

  /** The class of the first failed source address or time window condition. */
  ghost function DenyCode(lib: Library, req: Request, ls: seq<Located>): Code
  {
    CodeOf(FirstWhere(Failures(lib, req, ls), Classified()))
  }

  /** The first classified failure among the conditions of one statement. */
  method ConditionFailure(lib: Library, req: Request, l: Located) returns (r: Option<Failure>)
    ensures r == FirstWhere(FlatMap(l.stmt.conditions, Failed(lib, req, l)), Classified())
  {
    var cs := l.stmt.conditions;
    ghost var hit, piece := Classified(), Failed(lib, req, l);
    for i := 0 to |cs|
      invariant FirstWhere(FlatMap(cs[..i], piece), hit).None?
    {
      FirstInFlatMap(cs, i, piece, hit);
      var ok := CheckCondition(lib, cs[i], req);
      var f := Failure(l, cs[i]);
      assert FirstWhere([f], hit) == if hit(f) then Some(f) else None;
      if !ok && ClassOf(cs[i].op).Some? {
        return Some(f);
      }
    }
    assert cs[..|cs|] == cs;
    return None;
  }

  /** The first classified failure among the statements of one policy. */
  method PolicyFailure(lib: Library, req: Request, p: Policy) returns (r: Option<Failure>)
    ensures r == FirstWhere(Failures(lib, req, LocateAll(p)), Classified())
  {
    var ls := LocateAll(p);
    ghost var hit, piece := Classified(), FailuresOf(lib, req);
    for i := 0 to |ls|
      invariant FirstWhere(FlatMap(ls[..i], piece), hit).None?
    {
      FirstInFlatMap(ls, i, piece, hit);
      var target := CheckTarget(ls[i].stmt, req);
      if ls[i].stmt.effect != Allow || !target {
        continue;
      }
      r := ConditionFailure(lib, req, ls[i]);
      if r.Some? {
        return;
      }
    }
    assert ls[..|ls|] == ls;
    return None;
  }

  ghost function PolicyFailures(lib: Library, req: Request): Option<Policy> -> seq<Failure>
  {
    (p: Option<Policy>) => if p.Some? then Failures(lib, req, LocateAll(p.value)) else []
  }

  lemma FailuresByPolicy(lib: Library, req: Request, policies: seq<Option<Policy>>)
    ensures Failures(lib, req, Flatten(policies)) == FlatMap(policies, PolicyFailures(lib, req))
  {
    FlatMapFlatMap(policies, Place(), FailuresOf(lib, req), PolicyFailures(lib, req));
  }

  /** Refines a default deny: the first failed address or time condition of an allow
      statement that covered the request names the code. */
  method DefaultDenyCode(lib: Library, req: Request, policies: seq<Option<Policy>>) returns (code: Code)
    ensures code == DenyCode(lib, req, Flatten(policies))
  {
    FailuresByPolicy(lib, req, policies);
    ghost var hit, piece := Classified(), PolicyFailures(lib, req);
    for k := 0 to |policies|
      invariant FirstWhere(FlatMap(policies[..k], piece), hit).None?
    {
      FirstInFlatMap(policies, k, piece, hit);
      if policies[k].None? {
        continue;
      }
      var f := PolicyFailure(lib, req, policies[k].value);
      if f.Some? {
        return CodeOf(f);
      }
    }
    assert policies[..|policies|] == policies;
    return NoPermission;
  }

  // ---------------------------------------------------------------- evaluate

  ghost function ApplyRisk(e: Evaluator, req: Request, d: Decision): Decision
  {
    var t := RiskOf(e.risk, req);
    if t.None? then d
    else d.(allowed := false, effect := Some(Escalate), code := RiskEscalation,
            escalation := Some(Escalation(t.value.name, t.value.require)))
  }

  /** First deny, else first escalate, else first allow after risk, else default deny. */
  ghost function Decide(e: Evaluator, req: Request, ls: seq<Located>): Decision
  {
    var deny := FirstWhere(ls, Hits(e.lib, req, Deny));
    var escalate := FirstWhere(ls, Hits(e.lib, req, Escalate));
    var allow := FirstWhere(ls, Hits(e.lib, req, Allow));
    if deny.Some? then DenyBy(deny.value)
    else if escalate.Some? then EscalateBy(escalate.value)
    else if allow.Some? then ApplyRisk(e, req, AllowBy(allow.value))
    else DefaultDeny(DenyCode(e.lib, req, ls))
  }

  /** One policy: stops at its first deny, otherwise keeps the first escalate and allow. */
  method ScanPolicy(e: Evaluator, req: Request, p: Policy, escalate0: Option<Located>, allow0: Option<Located>)
    returns (deny: Option<Located>, escalate: Option<Located>, allow: Option<Located>)
    ensures deny == FirstWhere(LocateAll(p), Hits(e.lib, req, Deny))
    ensures deny.None? ==>
              && escalate == (if escalate0.Some? then escalate0
                              else FirstWhere(LocateAll(p), Hits(e.lib, req, Escalate)))
              && allow == (if allow0.Some? then allow0 else FirstWhere(LocateAll(p), Hits(e.lib, req, Allow)))
  {
    var ls := LocateAll(p);
    ghost var hd, he, ha := Hits(e.lib, req, Deny), Hits(e.lib, req, Escalate), Hits(e.lib, req, Allow);
    escalate, allow := escalate0, allow0;
    for i := 0 to |ls|
      invariant FirstWhere(ls[..i], hd).None?
      invariant escalate == if escalate0.Some? then escalate0 else FirstWhere(ls[..i], he)
      invariant allow == if allow0.Some? then allow0 else FirstWhere(ls[..i], ha)
    {
      FirstWhereSnoc(ls, i, hd);
      FirstWhereSnoc(ls, i, he);
      FirstWhereSnoc(ls, i, ha);
      var m := CheckStatement(e.lib, ls[i].stmt, req);
      if !m {
        continue;
      }
      if ls[i].stmt.effect == Deny {
        FirstWherePrefix(ls, i + 1, hd);
        return Some(ls[i]), escalate, allow;
      }
      if ls[i].stmt.effect == Escalate {
        if escalate.None? {
          escalate := Some(ls[i]);
        }
        continue;
      }
      if allow.None? {
        allow := Some(ls[i]);
      }
    }
    assert ls[..|ls|] == ls;
    deny := None;
  }

  lemma FlattenSnoc(policies: seq<Option<Policy>>, k: nat, hit: Located -> bool)
    requires k < |policies|
    ensures FirstWhere(Flatten(policies[..k + 1]), hit) ==
            if FirstWhere(Flatten(policies[..k]), hit).Some? then FirstWhere(Flatten(policies[..k]), hit)
            else FirstWhere(Place()(policies[k]), hit)
  {
    FlatMapSnoc(policies, k, Place());
    FirstWhereConcat(Flatten(policies[..k]), Place()(policies[k]), hit);
  }

  lemma FlattenPrefix(policies: seq<Option<Policy>>, k: nat, hit: Located -> bool)
    requires k <= |policies| && FirstWhere(Flatten(policies[..k]), hit).Some?
    ensures FirstWhere(Flatten(policies), hit) == FirstWhere(Flatten(policies[..k]), hit)
  {
    assert policies == policies[..k] + policies[k..];
    FlatMapConcat(policies[..k], policies[k..], Place());
    FirstWhereConcat(Flatten(policies[..k]), Flatten(policies[k..]), hit);
  }

  /** The statements decide, then risk tiers may tighten an allow. */
  method EvaluateStatements(e: Evaluator, req: Request, policies: seq<Option<Policy>>) returns (d: Decision)
    ensures d == Decide(e, req, Flatten(policies))
  {
    var escalate, allow: Option<Located> := None, None;
    ghost var hd, he, ha := Hits(e.lib, req, Deny), Hits(e.lib, req, Escalate), Hits(e.lib, req, Allow);
    for k := 0 to |policies|
      invariant FirstWhere(Flatten(policies[..k]), hd).None?
      invariant escalate == FirstWhere(Flatten(policies[..k]), he)
      invariant allow == FirstWhere(Flatten(policies[..k]), ha)
    {
      FlattenSnoc(policies, k, hd);
      FlattenSnoc(policies, k, he);
      FlattenSnoc(policies, k, ha);
      if policies[k].None? {
        continue;
      }
      var deny;
      deny, escalate, allow := ScanPolicy(e, req, policies[k].value, escalate, allow);
      if deny.Some? {
        FlattenPrefix(policies, k + 1, hd);
        return DenyBy(deny.value);
      }
    }
    assert policies[..|policies|] == policies;
    if escalate.Some? {
      return EscalateBy(escalate.value);
    }
    if allow.Some? {
      var t := Classify(e.risk, req);
      if t.None? {
        return AllowBy(allow.value);
      }
      return AllowBy(allow.value).(allowed := false, effect := Some(Escalate), code := RiskEscalation,
                                   escalation := Some(Escalation(t.value.name, t.value.require)));
    }
    var code := DefaultDenyCode(e.lib, req, policies);
    return DefaultDeny(code);
  }

  // ---------------------------------------------------------------- taint

  /** The tier of the first rule that carries the id and names a tier. */
  function NamedTier(rules: seq<TaintRule>, id: string, i: nat): Option<string>
    requires i <= |rules|
    decreases |rules| - i
  {
    if i == |rules| then None
    else if RuleId(rules[i], i) == id && rules[i].tier != "" then Some(rules[i].tier)
    else NamedTier(rules, id, i + 1)
  }

  /** The tier of an escalation caused by taint, read from its first escalating match. */
  function TaintTier(rules: seq<TaintRule>, matches: seq<TaintMatch>): string
  {
    if matches == [] then "taint"
    else if matches[0].effect != Escalate then TaintTier(rules, matches[1..])
    else
      var t := NamedTier(rules, matches[0].rule, 0);
      if t.Some? then t.value else "taint"
  }

  /** Tightens an allow or an escalate; a deny and a default deny pass through. */
  function ApplyTaint(e: Evaluator, v: Option<TaintVerdict>, d: Decision): Decision
  {
    if e.taint == [] || (!d.allowed && d.effect != Some(Escalate)) || v.None? then d
    else
      var d := d.(taint := v);
      match v.value.verdict
      case Clean => d
      case ToDeny => d.(allowed := false, effect := Some(Deny), escalation := None, code := TaintViolation)
      case ToEscalate =>
        if d.effect == Some(Escalate) then d
        else d.(allowed := false, effect := Some(Escalate), code := TaintViolation,
                escalation := Some(Escalation(TaintTier(e.taint, v.value.matches), Approval)))
  }

  ghost function Decided(e: Evaluator, req: Request, policies: seq<Option<Policy>>): Decision
  {
    ApplyTaint(e, TaintOutcome(e.taint, req, LabelSets(req.provenance)), Decide(e, req, Flatten(policies)))
  }

  /** Statements, then risk, then taint. */
  method Evaluate(e: Evaluator, req: Request, policies: seq<Option<Policy>>) returns (d: Decision)
    ensures d == Decided(e, req, policies)
  {
    d := EvaluateStatements(e, req, policies);
    if |e.taint| == 0 || (!d.allowed && d.effect != Some(Escalate)) {
      return;
    }
    var v := EvaluateTaint(e.taint, req);
    d := ApplyTaint(e, v, d);
  }

  /** The boundary policies, when any exist, must allow as well. A request without a time of its
      own gets a second clock reading, `again`, for them. */
  ghost function Bounded(e: Evaluator, req: Request, again: int,
                         identity: seq<Option<Policy>>, boundary: seq<Option<Policy>>): Decision
  {
    var d, b := Decided(e, req, identity), Decide(e, req.(now := again), Flatten(boundary));
    if !d.allowed || boundary == [] then d
    else if !b.allowed then b.(boundary := true)
    else d
  }

  method EvaluateWithBoundary(e: Evaluator, req: Request, again: int,
                              identity: seq<Option<Policy>>, boundary: seq<Option<Policy>>)
    returns (d: Decision)
    ensures d == Bounded(e, req, again, identity, boundary)
  {
    d := Evaluate(e, req, identity);
    if !d.allowed || |boundary| == 0 {
      return;
    }
    var b := EvaluateStatements(e, req.(now := again), boundary);
    if !b.allowed {
      d := b.(boundary := true);
    }
  }

  // ---------------------------------------------------------------- order-free meaning

  ghost predicate SomeMatch(lib: Library, req: Request, stmts: set<Statement>, eff: Effect)
  {
    exists st :: st in stmts && st.effect == eff && StatementMatches(lib, st, req)
  }

  /** The statements alone: any matching deny wins, then any escalate, then any allow,
      which a demanding risk tier turns into an escalate. */
  ghost function BaseOutcome(lib: Library, req: Request, stmts: set<Statement>, risk: set<RiskTier>): Option<Effect>
  {
    if SomeMatch(lib, req, stmts, Deny) then Some(Deny)
    else if SomeMatch(lib, req, stmts, Escalate) then Some(Escalate)
    else if SomeMatch(lib, req, stmts, Allow) then
      (if exists t :: t in risk && Demands(t, req) then Some(Escalate) else Some(Allow))
    else None
  }

  function Tighten(base: Option<Effect>, v: Verdict): Option<Effect>
  {
    if base.None? || base.value == Deny then base
    else match v case Clean => base case ToEscalate => Some(Escalate) case ToDeny => Some(Deny)
  }

  /** What a request gets, in terms of sets only. */
  ghost function Outcome(lib: Library, req: Request, stmts: set<Statement>, risk: set<RiskTier>, rules: set<TaintRule>)
    : Option<Effect>
  {
    Tighten(BaseOutcome(lib, req, stmts, risk), Severity(rules, req, LabelSets(req.provenance)))
  }

  ghost function Statements(policies: seq<Option<Policy>>): set<Statement>
  {
    set l | l in Flatten(policies) :: l.stmt
  }

  lemma HitsMeaning(lib: Library, req: Request, policies: seq<Option<Policy>>, eff: Effect)
    ensures FirstWhere(Flatten(policies), Hits(lib, req, eff)).Some? <==> SomeMatch(lib, req, Statements(policies), eff)
  {
    var hit := Hits(lib, req, eff);
    FirstWhereMeaning(Flatten(policies), hit);
    if l :| l in Flatten(policies) && hit(l) {
      assert l.stmt in Statements(policies);
    }
    if st :| st in Statements(policies) && st.effect == eff && StatementMatches(lib, st, req) {
      var l :| l in Flatten(policies) && l.stmt == st;
      assert hit(l);
    }
  }

  lemma DecideMeaning(e: Evaluator, req: Request, policies: seq<Option<Policy>>)
    ensures var d := Decide(e, req, Flatten(policies));
            && d.effect == BaseOutcome(e.lib, req, Statements(policies), Elements(e.risk))
            && (d.allowed <==> d.effect == Some(Allow))
  {
    HitsMeaning(e.lib, req, policies, Deny);
    HitsMeaning(e.lib, req, policies, Escalate);
    HitsMeaning(e.lib, req, policies, Allow);
    RiskMeaning(e.risk, req);
  }

  /** The evaluator decides what the sets of statements, tiers and rules say. */
  lemma EvaluateMeaning(e: Evaluator, req: Request, policies: seq<Option<Policy>>)
    ensures var d := Decided(e, req, policies);
            && d.effect == Outcome(e.lib, req, Statements(policies), Elements(e.risk), Elements(e.taint))
            && (d.allowed <==> d.effect == Some(Allow))
  {
    DecideMeaning(e, req, policies);
    TaintMeaning(e.taint, req, LabelSets(req.provenance));
  }

  /** Effect and Allowed do not depend on the order or grouping of statements, on repeats,
      nor on the order of tiers and rules. */
  lemma OrderIrrelevant(e: Evaluator, e': Evaluator, req: Request, ps: seq<Option<Policy>>, ps': seq<Option<Policy>>)
    requires Statements(ps) == Statements(ps') && e.lib == e'.lib
    requires Elements(e.risk) == Elements(e'.risk) && Elements(e.taint) == Elements(e'.taint)
    ensures Decided(e, req, ps).effect == Decided(e', req, ps').effect
    ensures Decided(e, req, ps).allowed == Decided(e', req, ps').allowed
  {
    EvaluateMeaning(e, req, ps);
    EvaluateMeaning(e', req, ps');
  }

  lemma BaseNeverLoosens(lib: Library, req: Request, stmts: set<Statement>, stmts': set<Statement>,
                         risk: set<RiskTier>, risk': set<RiskTier>)
    requires stmts <= stmts' && risk <= risk'
    requires forall st :: st in stmts' - stmts ==> st.effect != Allow
    requires BaseOutcome(lib, req, stmts', risk') == Some(Allow)
    ensures BaseOutcome(lib, req, stmts, risk) == Some(Allow)
  {
    var st :| st in stmts' && st.effect == Allow && StatementMatches(lib, st, req);
    assert st in stmts;
  }

  /** Adding deny or escalate statements, risk tiers or taint rules never turns a refusal
      into an allow. */
  lemma AddingNeverLoosens(e: Evaluator, e': Evaluator, req: Request, ps: seq<Option<Policy>>, ps': seq<Option<Policy>>)
    requires Statements(ps) <= Statements(ps') && e.lib == e'.lib
    requires forall st :: st in Statements(ps') - Statements(ps) ==> st.effect != Allow
    requires Elements(e.risk) <= Elements(e'.risk) && Elements(e.taint) <= Elements(e'.taint)
    ensures Decided(e', req, ps').allowed ==> Decided(e, req, ps).allowed
  {
    EvaluateMeaning(e, req, ps);
    EvaluateMeaning(e', req, ps');
    MoreRulesNeverMilder(Elements(e.taint), Elements(e'.taint), req, LabelSets(req.provenance));
    if Decided(e', req, ps').allowed {
      BaseNeverLoosens(e.lib, req, Statements(ps), Statements(ps'), Elements(e.risk), Elements(e'.risk));
    }
  }

  /** A boundary only narrows: allowed exactly when the identity policies allow and,
      if there is a boundary, its statements and the risk tiers allow too. */
  lemma BoundaryMeaning(e: Evaluator, req: Request, again: int,
                        identity: seq<Option<Policy>>, boundary: seq<Option<Policy>>)
    ensures Bounded(e, req, again, identity, boundary).allowed <==>
              && Outcome(e.lib, req, Statements(identity), Elements(e.risk), Elements(e.taint)) == Some(Allow)
              && (|| boundary == []
                  || BaseOutcome(e.lib, req.(now := again), Statements(boundary), Elements(e.risk)) == Some(Allow))
  {
    EvaluateMeaning(e, req, identity);
    DecideMeaning(e, req.(now := again), boundary);
  }
}
