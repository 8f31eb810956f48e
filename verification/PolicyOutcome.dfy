/**
 What a request is granted, told by the policies as written: their statements, the patterns
 and conditions in them, the risk tiers and the taint rules.
 */
module PolicyOutcome {
  import opened Options
  import opened Orders
  import opened Lists
  import opened Glob
  import opened Templates
  import opened PolicyModel
  import opened Taint
  import opened PolicyEval

  // ---------------------------------------------------------------- which statements count

  /** The statement stands in one of the policies. */
  ghost predicate Written(st: Statement, policies: seq<Option<Policy>>)
  {
    exists p: Policy :: Some(p) in policies && st in p.statements
  }

  lemma StatementsAreWritten(policies: seq<Option<Policy>>, st: Statement)
    ensures st in Statements(policies) <==> Written(st, policies)
  {
    if st in Statements(policies) {
      var l :| l in Flatten(policies) && l.stmt == st;
      FlatMapMember(policies, Place(), l);
      var p :| p in policies && l in Place()(p);
      assert Some(p.value) in policies && st in p.value.statements;
    }
    if p: Policy :| Some(p) in policies && st in p.statements {
      var i :| 0 <= i < |p.statements| && p.statements[i] == st;
      var l := Located(p.id, i, st);
      assert LocateAll(p)[i] == l;
      assert l in Place()(Some(p));
      FlatMapMember(policies, Place(), l);
    }
  }

  /** Some attribute that the pattern refers to is missing from the request. */
  ghost predicate Unresolved(pattern: string, req: Request)
  {
    exists name :: name in Names(pattern) && name !in req.attributes
  }

  /** An action pattern matches, and every condition holds. */
  ghost predicate Triggered(lib: Library, st: Statement, req: Request)
  {
    && (exists a :: a in st.actions && GlobMatch(a, req.action))
    && forall c :: c in st.conditions ==> Holds(lib, c, req)
  }

  /** A resource pattern matches once its references are replaced by the request's attributes. */
  ghost predicate Reaches(st: Statement, req: Request)
  {
    exists r :: r in st.resources && !Unresolved(r, req) && GlobMatch(Expanded(r, req.attributes, true), req.resource)
  }

  lemma TriggeredIs(lib: Library, st: Statement, req: Request)
    ensures Triggered(lib, st, req) <==>
            Covers(st.actions, req.action) && forall i :: 0 <= i < |st.conditions| ==> Holds(lib, st.conditions[i], req)
  {
    if Covers(st.actions, req.action) {
      var i :| 0 <= i < |st.actions| && GlobMatch(st.actions[i], req.action);
      assert st.actions[i] in st.actions;
    }
    assert forall i :: 0 <= i < |st.conditions| ==> st.conditions[i] in st.conditions;
  }

  lemma ResourceIs(st: Statement, req: Request, unresolved: bool)
    ensures MatchesResource(st, req, unresolved) <==>
            Reaches(st, req) || (unresolved && exists r :: r in st.resources && Unresolved(r, req))
  {
    assert forall r :: Unresolved(r, req) <==> !(Names(r) <= req.attributes.Keys);
    if MatchesResource(st, req, unresolved) {
      var i :| 0 <= i < |st.resources| && ResourceCovers(st.resources[i], req, unresolved);
      assert st.resources[i] in st.resources;
    }
    if r :| r in st.resources && ResourceCovers(r, req, unresolved) {
      var i :| 0 <= i < |st.resources| && st.resources[i] == r;
      assert ResourceCovers(st.resources[i], req, unresolved);
    }
  }

  /** A statement applies when it is triggered and reaches the resource. A deny also applies
      when it is triggered and one of its resources cannot be resolved. */
  lemma MatchesIff(lib: Library, st: Statement, req: Request)
    ensures StatementMatches(lib, st, req) <==>
            && Triggered(lib, st, req)
            && (Reaches(st, req) || (st.effect == Deny && exists r :: r in st.resources && Unresolved(r, req)))
  {
    TriggeredIs(lib, st, req);
    ResourceIs(st, req, st.effect == Deny);
  }

  // ---------------------------------------------------------------- failing closed

  lemma DenyWins(e: Evaluator, req: Request, policies: seq<Option<Policy>>, st: Statement)
    requires Written(st, policies) && st.effect == Deny && StatementMatches(e.lib, st, req)
    ensures Decided(e, req, policies).effect == Some(Deny) && !Decided(e, req, policies).allowed
  {
    StatementsAreWritten(policies, st);
    EvaluateMeaning(e, req, policies);
    assert SomeMatch(e.lib, req, Statements(policies), Deny);
  }

  /** A triggered deny whose resource names a missing attribute is decisive, whatever else the
      policies say: it fails closed. */
  lemma DenyFailsClosed(e: Evaluator, req: Request, policies: seq<Option<Policy>>, st: Statement, r: string)
    requires Written(st, policies) && st.effect == Deny && Triggered(e.lib, st, req)
    requires r in st.resources && !(Names(r) <= req.attributes.Keys)
    ensures Decided(e, req, policies).effect == Some(Deny) && !Decided(e, req, policies).allowed
  {
    var name :| name in Names(r) && name !in req.attributes;
    assert Unresolved(r, req);
    MatchesIff(e.lib, st, req);
    DenyWins(e, req, policies, st);
  }

  /** An allow or escalate whose resources all name a missing attribute never applies. */
  lemma UnresolvedGrantsNothing(lib: Library, st: Statement, req: Request)
    requires st.effect != Deny && forall r :: r in st.resources ==> !(Names(r) <= req.attributes.Keys)
    ensures !StatementMatches(lib, st, req)
  {
    MatchesIff(lib, st, req);
    forall r | r in st.resources
      ensures Unresolved(r, req)
    {
      var name :| name in Names(r) && name !in req.attributes;
    }
  }

  /** A resource without wildcards covers exactly the resource that its text spells once the
      values are put in, whatever bytes the values contain. */
  lemma PlainResource(r: string, req: Request, unresolved: bool)
    requires '*' !in r && '\\' !in r && Names(r) <= req.attributes.Keys
    ensures ResourceCovers(r, req, unresolved) <==> req.resource == Expanded(r, req.attributes, false)
  {
    ModesAgree(r, req.attributes, req.resource);
  }

  // ---------------------------------------------------------------- the decision

  ghost predicate Applying(e: Evaluator, req: Request, policies: seq<Option<Policy>>, eff: Effect)
  {
    exists st :: Written(st, policies) && st.effect == eff && StatementMatches(e.lib, st, req)
  }

  lemma ApplyingIs(e: Evaluator, req: Request, policies: seq<Option<Policy>>, eff: Effect)
    ensures Applying(e, req, policies, eff) <==> SomeMatch(e.lib, req, Statements(policies), eff)
  {
    forall st
      ensures st in Statements(policies) <==> Written(st, policies)
    {
      StatementsAreWritten(policies, st);
    }
  }

  /** Some matching risk tier requires an approval or a step-up. */
  ghost predicate Risky(e: Evaluator, req: Request)
  {
    exists t :: t in e.risk && TierMatches(t, req) && (t.require == Approval || t.require == StepUp)
  }

  ghost predicate Tainted(e: Evaluator, req: Request)
  {
    exists r :: r in e.taint && Violated(r, req, LabelSets(req.provenance))
  }

  ghost predicate DenyTainted(e: Evaluator, req: Request)
  {
    exists r :: r in e.taint && r.deny && Violated(r, req, LabelSets(req.provenance))
  }

  /** A request is allowed exactly when an allow applies, no deny and no escalate does, no risk
      tier demands more, and no taint rule is violated. */
  lemma AllowedIff(e: Evaluator, req: Request, policies: seq<Option<Policy>>)
    ensures Decided(e, req, policies).allowed <==>
            && Applying(e, req, policies, Allow) && !Applying(e, req, policies, Deny)
            && !Applying(e, req, policies, Escalate) && !Risky(e, req) && !Tainted(e, req)
    ensures Decided(e, req, policies).allowed <==> Decided(e, req, policies).effect == Some(Allow)
  {
    EvaluateMeaning(e, req, policies);
    AllApplyingAre(e, req, policies);
    RiskyIs(e, req);
    TaintedIs(e, req);
  }

  /** It is denied exactly when a deny applies, or something else does and a denying taint rule
      is violated; a request that no statement covers has no effect at all. */
  lemma DeniedIff(e: Evaluator, req: Request, policies: seq<Option<Policy>>)
    ensures var granted := Applying(e, req, policies, Allow) || Applying(e, req, policies, Escalate);
            && (Decided(e, req, policies).effect == Some(Deny) <==>
                  Applying(e, req, policies, Deny) || (granted && DenyTainted(e, req)))
            && (Decided(e, req, policies).effect.None? <==> !Applying(e, req, policies, Deny) && !granted)
  {
    EvaluateMeaning(e, req, policies);
    AllApplyingAre(e, req, policies);
    TaintedIs(e, req);
  }

  lemma AllApplyingAre(e: Evaluator, req: Request, policies: seq<Option<Policy>>)
    ensures forall eff :: Applying(e, req, policies, eff) <==> SomeMatch(e.lib, req, Statements(policies), eff)
  {
    forall eff
      ensures Applying(e, req, policies, eff) <==> SomeMatch(e.lib, req, Statements(policies), eff)
    {
      ApplyingIs(e, req, policies, eff);
    }
  }

  lemma RiskyIs(e: Evaluator, req: Request)
    ensures Risky(e, req) <==> exists t :: t in Elements(e.risk) && Demands(t, req)
  {
    if Risky(e, req) {
      var t :| t in e.risk && TierMatches(t, req) && (t.require == Approval || t.require == StepUp);
      assert t in Elements(e.risk) && Demands(t, req);
    }
  }

  lemma TaintedIs(e: Evaluator, req: Request)
    ensures var v := Severity(Elements(e.taint), req, LabelSets(req.provenance));
            (Tainted(e, req) <==> v != Clean) && (DenyTainted(e, req) <==> v == ToDeny)
  {
    assert forall r :: r in e.taint <==> r in Elements(e.taint);
  }
}
