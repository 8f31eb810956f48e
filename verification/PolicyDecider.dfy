/**
 Whether an explanation reports the very statement that decided. Statement ids need not be
 unique, and an unnamed statement is reported by its position, so another matching statement
 may carry the same ids.
 */
module PolicyDecider {
  import opened Options
  import opened Glob
  import opened Lists
  import opened PolicyModel
  import opened PolicyEval
  import opened PolicyExplain
  import opened Taint

  /** The statement at position p is the first one that passes the test. */
  ghost predicate IsFirst(ls: seq<Located>, hit: Located -> bool, p: nat)
  {
    p < |ls| && hit(ls[p]) && forall i :: 0 <= i < p ==> !hit(ls[i])
  }

  ghost predicate Nowhere(ls: seq<Located>, hit: Located -> bool)
  {
    forall i :: 0 <= i < |ls| ==> !hit(ls[i])
  }

  /** The statement at position p decides: the first matching deny, without one the first
      matching escalate, and without either the first matching allow. */
  ghost predicate Decides(lib: Library, req: Request, ls: seq<Located>, p: nat)
  {
    && p < |ls|
    && IsFirst(ls, Hits(lib, req, ls[p].stmt.effect), p)
    && (ls[p].stmt.effect != Deny ==> Nowhere(ls, Hits(lib, req, Deny)))
    && (ls[p].stmt.effect == Allow ==> Nowhere(ls, Hits(lib, req, Escalate)))
  }

  lemma FirstIs(ls: seq<Located>, hit: Located -> bool, p: nat)
    requires IsFirst(ls, hit, p)
    ensures FirstWhere(ls, hit) == Some(ls[p])
  {
    FirstWhereMeaning(ls, hit);
    assert ls[p] in ls;
    var i :| 0 <= i < |ls| && FirstWhere(ls, hit).value == ls[i] && hit(ls[i])
             && forall j :: 0 <= j < i ==> !hit(ls[j]);
    assert i == p;
  }

  lemma NowhereIs(ls: seq<Located>, hit: Located -> bool)
    ensures Nowhere(ls, hit) <==> FirstWhere(ls, hit).None?
  {
    FirstWhereMeaning(ls, hit);
    if FirstWhere(ls, hit).None? {
      forall i | 0 <= i < |ls|
        ensures !hit(ls[i])
      {
        assert ls[i] in ls;
      }
    }
  }

  lemma FirstAt(ls: seq<Located>, hit: Located -> bool) returns (p: nat)
    requires FirstWhere(ls, hit).Some?
    ensures IsFirst(ls, hit, p)
  {
    FirstWhereMeaning(ls, hit);
    p :| p < |ls| && FirstWhere(ls, hit).value == ls[p] && hit(ls[p])
         && forall j :: 0 <= j < p ==> !hit(ls[j]);
  }

  /** The decision names the statement that decides, also after risk. */
  lemma DecidesNames(e: Evaluator, req: Request, ls: seq<Located>, p: nat)
    requires Decides(e.lib, req, ls, p)
    ensures var d := Decide(e, req, ls);
            d.effect.Some? && d.policyId == ls[p].policyId && d.statementId == StatementId(ls[p])
  {
    FirstIs(ls, Hits(e.lib, req, ls[p].stmt.effect), p);
    NowhereIs(ls, Hits(e.lib, req, Deny));
    NowhereIs(ls, Hits(e.lib, req, Escalate));
  }

  /** A statement decides exactly when the decision has an effect. */
  lemma DeciderExists(e: Evaluator, req: Request, ls: seq<Located>)
    ensures Decide(e, req, ls).effect.Some? <==> exists p: nat :: Decides(e.lib, req, ls, p)
  {
    var hd, he, ha := Hits(e.lib, req, Deny), Hits(e.lib, req, Escalate), Hits(e.lib, req, Allow);
    NowhereIs(ls, hd);
    NowhereIs(ls, he);
    if p: nat :| Decides(e.lib, req, ls, p) {
      DecidesNames(e, req, ls, p);
    }
    if FirstWhere(ls, hd).Some? {
      var p := FirstAt(ls, hd);
      assert Decides(e.lib, req, ls, p);
    } else if FirstWhere(ls, he).Some? {
      var p := FirstAt(ls, he);
      assert Decides(e.lib, req, ls, p);
    } else if FirstWhere(ls, ha).Some? {
      var p := FirstAt(ls, ha);
      assert Decides(e.lib, req, ls, p);
    }
  }

  /** An earlier matching statement with the ids of the one at p. */
  ghost predicate Shadows(lib: Library, req: Request, ls: seq<Located>, i: nat, p: nat)
    requires p < |ls|
  {
    && i < p
    && ls[i].policyId == ls[p].policyId && StatementId(ls[i]) == StatementId(ls[p])
    && StatementMatches(lib, ls[i].stmt, req)
  }

  lemma DecidedIds(e: Evaluator, req: Request, policies: seq<Option<Policy>>, p: nat)
    requires Decides(e.lib, req, Flatten(policies), p)
    ensures var d, l := Decided(e, req, policies), Flatten(policies)[p];
            d.effect.Some? && d.policyId == l.policyId && d.statementId == StatementId(l)
  {
    DecidesNames(e, req, Flatten(policies), p);
    DecideMeaning(e, req, policies);
    TaintKeepsIds(e, TaintOutcome(e.taint, req, LabelSets(req.provenance)), Decide(e, req, Flatten(policies)));
  }

  lemma FoundIff(ls: seq<Located>, named: Located -> bool, hits: Located -> bool, p: nat)
    requires IsFirst(ls, hits, p)
    ensures FirstWhere(ls, named) == Some(ls[p]) <==> named(ls[p]) && forall i :: 0 <= i < p ==> !named(ls[i])
  {
    FirstWhereMeaning(ls, named);
    if named(ls[p]) && forall i :: 0 <= i < p ==> !named(ls[i]) {
      FirstIs(ls, named, p);
    } else if FirstWhere(ls, named).Some? {
      var k := FirstAt(ls, named);
      FirstIs(ls, named, k);
      assert k < p ==> !hits(ls[k]);
      if i :| 0 <= i < p && named(ls[i]) {
        assert k <= i;
      }
    }
  }

  /** The explanation finds the statement that decided, and reports its conditions, if and only
      if that statement still matches at the second clock reading and no earlier statement that
      matches then carries the same policy id and statement id. */
  lemma ExplainsDecider(e: Evaluator, req: Request, again: int, policies: seq<Option<Policy>>, p: nat)
    requires Decides(e.lib, req, Flatten(policies), p)
    ensures var ls, late := Flatten(policies), req.(now := again);
            Found(e, req, again, policies) == Some(ls[p]) <==>
            StatementMatches(e.lib, ls[p].stmt, late) && !exists i: nat :: Shadows(e.lib, late, ls, i, p)
    ensures var ls, late := Flatten(policies), req.(now := again);
            Found(e, req, again, policies) == Some(ls[p]) ==>
              Explained(e, req, again, policies).conditions
              == FlatMap(ls[p].stmt.conditions, Result(e.lib, late, ls[p].policyId, StatementId(ls[p])))
  {
    var ls, late := Flatten(policies), req.(now := again);
    var named := NamedBy(e.lib, late, Decided(e, req, policies));
    DecidedIds(e, req, policies, p);
    FoundIff(ls, named, Hits(e.lib, req, ls[p].stmt.effect), p);
    assert forall i: nat :: i < p ==> (named(ls[i]) <==> Shadows(e.lib, late, ls, i, p));
  }

  ghost predicate DistinctIds(ls: seq<Located>)
  {
    forall i, j :: 0 <= i < j < |ls| && ls[i].policyId == ls[j].policyId ==> StatementId(ls[i]) != StatementId(ls[j])
  }

  /** No condition of the statement looks at the clock. */
  predicate TimeFree(st: Statement)
  {
    forall i :: 0 <= i < |st.conditions| ==> !st.conditions[i].op.TimeWindow? && !st.conditions[i].op.DailyWindow?
  }

  lemma MatchesAnytime(lib: Library, st: Statement, req: Request, again: int)
    requires TimeFree(st)
    ensures StatementMatches(lib, st, req.(now := again)) <==> StatementMatches(lib, st, req)
  {
    var late := req.(now := again);
    forall i | 0 <= i < |st.conditions|
      ensures Holds(lib, st.conditions[i], late) <==> Holds(lib, st.conditions[i], req)
    {
      assert Subject(st.conditions[i], late) == Subject(st.conditions[i], req);
    }
    assert forall i :: 0 <= i < |st.resources| ==>
             (ResourceCovers(st.resources[i], late, st.effect == Deny)
              <==> ResourceCovers(st.resources[i], req, st.effect == Deny));
  }

  /** With distinct ids the explanation reports the statement that decided exactly when it still
      matches at the second clock reading, in particular when no condition of it looks at the
      clock. */
  lemma DistinctIdsExplain(e: Evaluator, req: Request, again: int, policies: seq<Option<Policy>>, p: nat)
    requires Decides(e.lib, req, Flatten(policies), p) && DistinctIds(Flatten(policies))
    ensures var l := Flatten(policies)[p];
            && (Found(e, req, again, policies) == Some(l) <==> StatementMatches(e.lib, l.stmt, req.(now := again)))
            && (TimeFree(l.stmt) || again == req.now ==> Found(e, req, again, policies) == Some(l))
  {
    var l := Flatten(policies)[p];
    ExplainsDecider(e, req, again, policies, p);
    assert Hits(e.lib, req, l.stmt.effect)(l);
    if TimeFree(l.stmt) {
      MatchesAnytime(e.lib, l.stmt, req, again);
    }
    assert again == req.now ==> req.(now := again) == req;
  }

  // ---------------------------------------------------------------- a shared id

  lemma StarMatches(s: string)
    ensures GlobMatch("*", s)
  {
    assert "*"[1..] == "" && Tokens("*") == [Star] && [Star][1..] == [];
    assert s[|s|..] == "" && Matches([], s[|s|..]);
  }

  /** An allow that is named as the second statement would be, with one condition. */
  const NAMED := Statement("stmt-1", Allow, ["*"], ["*"], [Condition(NotIn, "k", ["v"])], "", Unset)

  /** An unnamed deny without conditions. */
  const UNNAMED := Statement("", Deny, ["*"], ["*"], [], "", Unset)

  lemma StarApplies(lib: Library, req: Request, st: Statement)
    requires st.actions == ["*"] && st.resources == ["*"]
    requires forall i :: 0 <= i < |st.conditions| ==> Holds(lib, st.conditions[i], req)
    ensures StatementMatches(lib, st, req)
  {
    StarMatches(req.action);
    StarMatches(req.resource);
    ExpandedPlain("*", req.attributes, true);
    assert GlobMatch(st.actions[0], req.action) && ResourceCovers(st.resources[0], req, st.effect == Deny);
  }

  lemma OnePolicy(p: Policy)
    ensures Flatten([Some(p)]) == LocateAll(p)
  {
    var ps: seq<Option<Policy>> := [Some(p)];
    assert ps[..0] == [] && ps[..1] == ps;
    FlatMapSnoc(ps, 0, Place());
  }

  lemma BothMatch(lib: Library, req: Request)
    requires "k" !in req.attributes
    ensures StatementMatches(lib, NAMED, req) && StatementMatches(lib, UNNAMED, req)
    ensures Decides(lib, req, [Located("p", 0, NAMED), Located("p", 1, UNNAMED)], 1)
  {
    assert Holds(lib, NAMED.conditions[0], req);
    StarApplies(lib, req, NAMED);
    StarApplies(lib, req, UNNAMED);
  }

  /** Two matching statements with one id: the deny at position 1 decides, but the explanation
      finds the allow at position 0 and reports its condition. */
  lemma SharedIdMisleads(e: Evaluator, req: Request, again: int)
    requires "k" !in req.attributes
    ensures var policies := [Some(Policy("p", [NAMED, UNNAMED]))];
            && Flatten(policies) == [Located("p", 0, NAMED), Located("p", 1, UNNAMED)]
            && Decides(e.lib, req, Flatten(policies), 1)
            && Found(e, req, again, policies) == Some(Located("p", 0, NAMED))
            && Decided(e, req, policies).effect == Some(Deny)
            && Explained(e, req, again, policies).conditions
               == [ConditionResult("p", "stmt-1", Condition(NotIn, "k", ["v"]), true)]
  {
    var policies := [Some(Policy("p", [NAMED, UNNAMED]))];
    var ls, late := Flatten(policies), req.(now := again);
    OnePolicy(Policy("p", [NAMED, UNNAMED]));
    BothMatch(e.lib, req);
    BothMatch(e.lib, late);
    DecidedIds(e, req, policies, 1);
    assert Decimal(1) == "1" && StatementId(ls[1]) == "stmt-1" == StatementId(ls[0]);
    FirstIs(ls, NamedBy(e.lib, late, Decided(e, req, policies)), 0);
    DecidesDeny(e, req, policies, 1);
    OneResult(NAMED.conditions[0], Result(e.lib, late, "p", "stmt-1"));
  }

  lemma OneResult(c: Condition, piece: Condition -> seq<ConditionResult>)
    ensures FlatMap([c], piece) == piece(c)
  {
    assert [c][..0] == [];
    assert FlatMap([c], piece) == [] + piece(c);
  }

  lemma DecidesDeny(e: Evaluator, req: Request, policies: seq<Option<Policy>>, p: nat)
    requires Decides(e.lib, req, Flatten(policies), p) && Flatten(policies)[p].stmt.effect == Deny
    ensures Decided(e, req, policies).effect == Some(Deny)
  {
    FirstIs(Flatten(policies), Hits(e.lib, req, Deny), p);
  }

  // ---------------------------------------------------------------- a window that ends

  /** An allow until a point in time. */
  const UNTIL := Statement("s", Allow, ["*"], ["*"], [Condition(TimeWindow, "", ["", "T"])], "", Unset)

  lemma UntilMatches(lib: Library, req: Request, t: int)
    requires lib.parseTime("T") == Some(t)
    ensures StatementMatches(lib, UNTIL, req) <==> req.now < t
  {
    assert Holds(lib, UNTIL.conditions[0], req) <==> req.now < t;
    if req.now < t {
      StarApplies(lib, req, UNTIL);
    }
  }

  /** When the window ends between the two clock readings, a statement decided and none is
      found: the explanation names it and reports no condition. */
  lemma WindowEnds(e: Evaluator, req: Request, again: int, t: int)
    requires e.lib.parseTime("T") == Some(t) && req.now < t <= again
    ensures var policies := [Some(Policy("p", [UNTIL]))];
            && Decides(e.lib, req, Flatten(policies), 0)
            && Found(e, req, again, policies).None?
            && Explained(e, req, again, policies).conditions == []
  {
    var policies := [Some(Policy("p", [UNTIL]))];
    var ls, late := Flatten(policies), req.(now := again);
    OnePolicy(Policy("p", [UNTIL]));
    UntilMatches(e.lib, req, t);
    UntilMatches(e.lib, late, t);
    DecidedIds(e, req, policies, 0);
    NowhereIs(ls, NamedBy(e.lib, late, Decided(e, req, policies)));
  }
}
