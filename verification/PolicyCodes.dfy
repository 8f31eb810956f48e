/**
 What a decision says beside allowing or refusing: its code, and what an escalation demands.
 */
module PolicyCodes {
  import opened Options
  import opened Orders
  import opened Lists
  import opened PolicyModel
  import opened Taint
  import opened PolicyEval
  import opened PolicyOutcome
  import PolicyExplain

  // ---------------------------------------------------------------- codes

  /** What the statements and the risk tiers decide, kind by kind. */
  ghost predicate ByKind(d: Decision, deny: bool, escalate: bool, allow: bool, risky: bool, code: Code)
  {
    && (d.allowed <==> d.effect == Some(Allow)) && (d.escalation.Some? <==> d.effect == Some(Escalate))
    && if deny then d.effect == Some(Deny) && d.code == NoPermission
       else if escalate then d.effect == Some(Escalate) && d.code == ApprovalRequired
       else if allow && risky then d.effect == Some(Escalate) && d.code == RiskEscalation
       else if allow then d.effect == Some(Allow) && d.code == Allowed
       else d.effect.None? && d.code == code
  }

  lemma DecideByKind(e: Evaluator, req: Request, policies: seq<Option<Policy>>)
    ensures ByKind(Decide(e, req, Flatten(policies)), Applying(e, req, policies, Deny),
                   Applying(e, req, policies, Escalate), Applying(e, req, policies, Allow), Risky(e, req),
                   DenyCode(e.lib, req, Flatten(policies)))
  {
    AllApplyingAre(e, req, policies);
    HitsMeaning(e.lib, req, policies, Deny);
    HitsMeaning(e.lib, req, policies, Escalate);
    HitsMeaning(e.lib, req, policies, Allow);
    RiskMeaning(e.risk, req);
    RiskyIs(e, req);
  }

  /** The verdict that counts: none without rules or labels. */
  function Effective(e: Evaluator, v: Option<TaintVerdict>): Verdict
  {
    if e.taint == [] || v.None? then Clean else v.value.verdict
  }

  lemma EffectiveIs(e: Evaluator, req: Request)
    ensures var v := Effective(e, TaintOutcome(e.taint, req, LabelSets(req.provenance)));
            (v != Clean <==> Tainted(e, req)) && (v == ToDeny <==> DenyTainted(e, req))
  {
    TaintedIs(e, req);
    TaintMeaning(e.taint, req, LabelSets(req.provenance));
  }

  /** The code of the final decision, kind by kind. */
  ghost predicate Coded(d: Decision, deny: bool, escalate: bool, allow: bool, risky: bool, tainted: bool, severe: bool)
  {
    && (d.escalation.Some? <==> d.effect == Some(Escalate))
    && (deny ==> d.code == NoPermission)
    && (!deny && (escalate || allow) && severe ==> d.code == TaintViolation)
    && (!deny && escalate && !severe ==> d.code == ApprovalRequired)
    && (!deny && !escalate && allow && !severe ==>
          d.code == if risky then RiskEscalation else if tainted then TaintViolation else Allowed)
  }

  lemma TaintedCode(e: Evaluator, v: Option<TaintVerdict>, b: Decision, deny: bool, escalate: bool, allow: bool,
                    risky: bool, code: Code)
    requires ByKind(b, deny, escalate, allow, risky, code)
    ensures Coded(ApplyTaint(e, v, b), deny, escalate, allow, risky, Effective(e, v) != Clean,
                  Effective(e, v) == ToDeny)
    ensures b.effect.None? || b.effect == Some(Deny) ==> ApplyTaint(e, v, b) == b
  {
  }

  /** The code names the reason: an explicit deny, an escalate statement, a risk tier, or a
      violated taint rule that made the outcome stricter. An escalation comes with exactly the
      decisions that escalate. */
  lemma CodeMeaning(e: Evaluator, req: Request, policies: seq<Option<Policy>>)
    ensures Coded(Decided(e, req, policies), Applying(e, req, policies, Deny), Applying(e, req, policies, Escalate),
                  Applying(e, req, policies, Allow), Risky(e, req), Tainted(e, req), DenyTainted(e, req))
  {
    DecideByKind(e, req, policies);
    EffectiveIs(e, req);
    TaintedCode(e, TaintOutcome(e.taint, req, LabelSets(req.provenance)), Decide(e, req, Flatten(policies)),
                Applying(e, req, policies, Deny), Applying(e, req, policies, Escalate),
                Applying(e, req, policies, Allow), Risky(e, req), DenyCode(e.lib, req, Flatten(policies)));
  }

  // ---------------------------------------------------------------- a default deny

  datatype Matter = Address | Time

  predicate About(op: Op, m: Matter)
  {
    match m
    case Address => op == IpCidr || op == NotIpCidr
    case Time => op == TimeWindow || op == DailyWindow
  }

  /** An allow that covers the request fails on a condition about the matter. */
  ghost predicate FailsOn(e: Evaluator, req: Request, policies: seq<Option<Policy>>, m: Matter)
  {
    exists st, c :: Written(st, policies) && st.effect == Allow && MatchesTarget(st, req)
                    && c in st.conditions && About(c.op, m) && !Holds(e.lib, c, req)
  }

  lemma PieceIs(lib: Library, req: Request, l: Located, f: Failure)
    requires f in FailuresOf(lib, req)(l)
    ensures l.stmt.effect == Allow && MatchesTarget(l.stmt, req)
    ensures f.at == l && f.cond in l.stmt.conditions && !Holds(lib, f.cond, req)
  {
    PolicyExplain.FailedFails(lib, req, l, l.stmt.conditions, f);
  }

  lemma FailureWritten(lib: Library, req: Request, policies: seq<Option<Policy>>, f: Failure)
    requires f in Failures(lib, req, Flatten(policies))
    ensures var st := f.at.stmt;
            && Written(st, policies) && st.effect == Allow && MatchesTarget(st, req)
            && f.cond in st.conditions && !Holds(lib, f.cond, req)
  {
    FlatMapMember(Flatten(policies), FailuresOf(lib, req), f);
    var l :| l in Flatten(policies) && f in FailuresOf(lib, req)(l);
    PieceIs(lib, req, l, f);
    assert l.stmt in Statements(policies);
    StatementsAreWritten(policies, l.stmt);
  }

  lemma WrittenFailure(lib: Library, req: Request, policies: seq<Option<Policy>>, st: Statement, c: Condition)
    returns (f: Failure)
    requires Written(st, policies) && st.effect == Allow && MatchesTarget(st, req)
    requires c in st.conditions && !Holds(lib, c, req)
    ensures f in Failures(lib, req, Flatten(policies)) && f.cond == c
  {
    var ls, piece := Flatten(policies), FailuresOf(lib, req);
    StatementsAreWritten(policies, st);
    var l :| l in ls && l.stmt == st;
    f := Failure(l, c);
    assert f in Failed(lib, req, l)(c);
    FlatMapMember(l.stmt.conditions, Failed(lib, req, l), f);
    assert f in piece(l);
    FlatMapMember(ls, piece, f);
  }

  /** The code is about the address or the time exactly when something of that kind failed. */
  predicate CodeFits(code: Code, address: bool, time: bool)
  {
    && (code == NoPermission || code == IpNotAllowed || code == TimeRestricted)
    && (code == NoPermission <==> !address && !time)
    && (code == IpNotAllowed ==> address) && (code == TimeRestricted ==> time)
  }

  lemma DenyCodeFits(e: Evaluator, req: Request, policies: seq<Option<Policy>>)
    ensures CodeFits(CodeOf(FirstWhere(Failures(e.lib, req, Flatten(policies)), Classified())),
                     FailsOn(e, req, policies, Address), FailsOn(e, req, policies, Time))
  {
    FirstClassified(e, req, policies, Address);
    FirstClassified(e, req, policies, Time);
    NothingClassified(e, req, policies, Address);
    NothingClassified(e, req, policies, Time);
  }

  /** A default deny is about the address or the time exactly when some allow covers the request
      and fails on such a condition, and then only about a class that really failed. */
  lemma DefaultCodeMeaning(e: Evaluator, req: Request, policies: seq<Option<Policy>>)
    requires Decided(e, req, policies).effect.None?
    ensures CodeFits(Decided(e, req, policies).code, FailsOn(e, req, policies, Address),
                     FailsOn(e, req, policies, Time))
  {
    DefaultIs(e, req, policies);
    DenyCodeFits(e, req, policies);
  }

  lemma FirstClassified(e: Evaluator, req: Request, policies: seq<Option<Policy>>, m: Matter)
    ensures var first := FirstWhere(Failures(e.lib, req, Flatten(policies)), Classified());
            && (first.Some? ==> About(first.value.cond.op, Address) || About(first.value.cond.op, Time))
            && (first.Some? && About(first.value.cond.op, m) ==> FailsOn(e, req, policies, m))
  {
    var fs := Failures(e.lib, req, Flatten(policies));
    FirstWhereMeaning(fs, Classified());
    var first := FirstWhere(fs, Classified());
    if first.Some? {
      FailureWritten(e.lib, req, policies, first.value);
    }
  }

  lemma DefaultIs(e: Evaluator, req: Request, policies: seq<Option<Policy>>)
    requires Decided(e, req, policies).effect.None?
    ensures Decided(e, req, policies).code
            == CodeOf(FirstWhere(Failures(e.lib, req, Flatten(policies)), Classified()))
  {
    DecideByKind(e, req, policies);
    DeniedIff(e, req, policies);
    TaintedCode(e, TaintOutcome(e.taint, req, LabelSets(req.provenance)), Decide(e, req, Flatten(policies)),
                Applying(e, req, policies, Deny), Applying(e, req, policies, Escalate),
                Applying(e, req, policies, Allow), Risky(e, req), DenyCode(e.lib, req, Flatten(policies)));
  }

  lemma NothingClassified(e: Evaluator, req: Request, policies: seq<Option<Policy>>, m: Matter)
    ensures FailsOn(e, req, policies, m) ==>
              FirstWhere(Failures(e.lib, req, Flatten(policies)), Classified()).Some?
  {
    var fs := Failures(e.lib, req, Flatten(policies));
    if FailsOn(e, req, policies, m) {
      var st, c :| Written(st, policies) && st.effect == Allow && MatchesTarget(st, req)
                   && c in st.conditions && About(c.op, m) && !Holds(e.lib, c, req);
      var f := WrittenFailure(e.lib, req, policies, st, c);
      FirstWhereMeaning(fs, Classified());
      assert Classified()(f);
    }
  }

  // ---------------------------------------------------------------- escalations

  /** Some matching risk tier requires this. */
  ghost predicate Requires(e: Evaluator, req: Request, what: Requirement)
  {
    exists t :: t in e.risk && TierMatches(t, req) && t.require == what
  }

  /** Of the risk tiers that match, the strongest speaks: a step-up if any asks for one, else an
      approval. */
  lemma StrongestSpeaks(e: Evaluator, req: Request)
    requires Risky(e, req)
    ensures var t := RiskOf(e.risk, req);
            && t.Some? && t.value in e.risk && TierMatches(t.value, req)
            && t.value.require == if Requires(e, req, StepUp) then StepUp else Approval
  {
    RiskyIs(e, req);
    RiskMeaning(e.risk, req);
    var t := RiskOf(e.risk, req);
    var i: nat :| IsStrongest(e.risk, req, i) && Demands(e.risk[i], req) && t == Some(e.risk[i]);
    if Requires(e, req, StepUp) {
      var s :| s in e.risk && TierMatches(s, req) && s.require == StepUp;
      var j :| 0 <= j < |e.risk| && e.risk[j] == s;
      assert Strength(e.risk[j].require) <= Strength(e.risk[i].require);
    }
  }

  /** An allow that a risk tier escalates demands what the strongest matching tier requires. */
  lemma RiskEscalates(e: Evaluator, req: Request, policies: seq<Option<Policy>>)
    requires Applying(e, req, policies, Allow) && !Applying(e, req, policies, Deny)
    requires !Applying(e, req, policies, Escalate) && Risky(e, req) && !DenyTainted(e, req)
    ensures var d := Decided(e, req, policies);
            && d.effect == Some(Escalate) && d.escalation.Some?
            && d.escalation.value.requirement == if Requires(e, req, StepUp) then StepUp else Approval
  {
    StrongestSpeaks(e, req);
    DecideByKind(e, req, policies);
    TaintedIs(e, req);
    TaintMeaning(e.taint, req, LabelSets(req.provenance));
    AllApplyingAre(e, req, policies);
    HitsMeaning(e.lib, req, policies, Deny);
    HitsMeaning(e.lib, req, policies, Escalate);
    HitsMeaning(e.lib, req, policies, Allow);
    assert Decide(e, req, Flatten(policies)).escalation.value.requirement == RiskOf(e.risk, req).value.require;
  }

  /** An escalate statement that decides names the tier, and what it demands: an approval when it
      says nothing else. */
  lemma StatementEscalates(e: Evaluator, req: Request, policies: seq<Option<Policy>>)
    requires Applying(e, req, policies, Escalate) && !Applying(e, req, policies, Deny) && !DenyTainted(e, req)
    ensures exists st :: && Written(st, policies) && st.effect == Escalate && StatementMatches(e.lib, st, req)
                         && Decided(e, req, policies).escalation
                            == Some(Escalation(st.tier, if st.require == Unset then Approval else st.require))
  {
    AllApplyingAre(e, req, policies);
    HitsMeaning(e.lib, req, policies, Deny);
    HitsMeaning(e.lib, req, policies, Escalate);
    var hit := Hits(e.lib, req, Escalate);
    FirstWhereMeaning(Flatten(policies), hit);
    var l := FirstWhere(Flatten(policies), hit).value;
    assert hit(l) && l.stmt in Statements(policies);
    StatementsAreWritten(policies, l.stmt);
    EffectiveIs(e, req);
    assert Decide(e, req, Flatten(policies)) == EscalateBy(l);
    KeepsEscalation(e, TaintOutcome(e.taint, req, LabelSets(req.provenance)), EscalateBy(l));
  }

  lemma KeepsEscalation(e: Evaluator, v: Option<TaintVerdict>, b: Decision)
    requires b.effect == Some(Escalate) && Effective(e, v) != ToDeny
    ensures ApplyTaint(e, v, b).escalation == b.escalation
  {
  }

  lemma TaintKeepsBoundary(e: Evaluator, v: Option<TaintVerdict>, b: Decision)
    ensures ApplyTaint(e, v, b).boundary == b.boundary
  {
  }

  lemma OwnDecision(e: Evaluator, req: Request, ls: seq<Located>)
    ensures !Decide(e, req, ls).boundary
  {
  }

  /** A decision names the boundary exactly when the identity policies allow and the boundary
      does not; then its reasons are those of the boundary, and otherwise of the identity
      policies. */
  lemma BoundaryNamed(e: Evaluator, req: Request, again: int, identity: seq<Option<Policy>>,
                      boundary: seq<Option<Policy>>)
    ensures Bounded(e, req, again, identity, boundary).boundary <==>
            && Outcome(e.lib, req, Statements(identity), Elements(e.risk), Elements(e.taint)) == Some(Allow)
            && boundary != []
            && BaseOutcome(e.lib, req.(now := again), Statements(boundary), Elements(e.risk)) != Some(Allow)
    ensures var r := Bounded(e, req, again, identity, boundary);
            var from := if r.boundary then Decide(e, req.(now := again), Flatten(boundary))
                        else Decided(e, req, identity);
            r.effect == from.effect && r.code == from.code && r.policyId == from.policyId
            && r.statementId == from.statementId && r.escalation == from.escalation && r.taint == from.taint
  {
    EvaluateMeaning(e, req, identity);
    DecideMeaning(e, req.(now := again), boundary);
    OwnDecision(e, req, Flatten(identity));
    OwnDecision(e, req.(now := again), Flatten(boundary));
    TaintKeepsBoundary(e, TaintOutcome(e.taint, req, LabelSets(req.provenance)), Decide(e, req, Flatten(identity)));
  }
}
