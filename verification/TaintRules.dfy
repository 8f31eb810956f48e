/**
 When a taint rule is violated, told by the labels that a request carries as they stand.
 */
module TaintRules {
  import opened Options
  import opened Orders
  import opened Glob
  import opened PolicyModel
  import opened Taint
  import opened PolicyEval

  /** The request labels the argument; blank labels do not count. */
  ghost predicate Labeled(req: Request, arg: string, l: string)
  {
    arg in req.provenance && l in req.provenance[arg] && l != ""
  }

  /** The labels that a rule looks at: those of the whole call and of every argument. */
  ghost function Anywhere(req: Request): string -> bool { (l: string) => exists arg :: Labeled(req, arg, l) }

  /** The labels that a rule for one argument looks at: its own and those of the whole call. */
  ghost function OnArg(req: Request, arg: string): string -> bool
  {
    (l: string) => Labeled(req, arg, l) || Labeled(req, "*", l)
  }

  /** A forbidden label is there, or a required one is missing. Without any label nothing is
      missing, unless the rule is strict. */
  ghost predicate Breached(strict: bool, has: string -> bool, spec: ArgRule)
  {
    || (exists l, p :: has(l) && p in spec.forbid && MatchLabel(p, l))
    || ((strict || exists l :: has(l))
        && exists p :: p in spec.require && forall l :: has(l) ==> !MatchLabel(p, l))
  }

  lemma BreachedIs(strict: bool, labels: set<string>, has: string -> bool, spec: ArgRule)
    requires forall l :: l in labels <==> has(l)
    ensures CheckFails(strict, labels, spec) <==> Breached(strict, has, spec)
  {
    forall l
      ensures MatchesAny(spec.forbid, l) <==> exists p :: p in spec.forbid && MatchLabel(p, l)
    {
      if MatchesAny(spec.forbid, l) {
        var i :| 0 <= i < |spec.forbid| && MatchLabel(spec.forbid[i], l);
        assert spec.forbid[i] in spec.forbid;
      }
    }
    if l :| has(l) {
      assert l in labels;
    }
    if l :| l in labels {
      assert has(l);
    }
  }

  lemma SetOfIs(req: Request, arg: string, l: string)
    ensures l in SetOf(LabelSets(req.provenance), arg) <==> Labeled(req, arg, l)
  {
    if Labeled(req, arg, l) {
      assert l in NonBlank(req.provenance[arg]);
    }
  }

  lemma AllLabelsIs(req: Request, l: string)
    ensures l in AllLabels(LabelSets(req.provenance)) <==> exists arg :: Labeled(req, arg, l)
  {
    var ls := LabelSets(req.provenance);
    if l in AllLabels(ls) {
      var arg :| arg in ls && l in ls[arg];
      SetOfIs(req, arg, l);
    }
    if arg :| Labeled(req, arg, l) {
      SetOfIs(req, arg, l);
      assert arg in ls && l in ls[arg];
    }
  }

  lemma UnlabeledIs(req: Request)
    ensures LabelSets(req.provenance) == map[] <==> !exists arg, l :: Labeled(req, arg, l)
  {
    var ls := LabelSets(req.provenance);
    if ls != map[] {
      var arg :| arg in ls;
      var l :| l in ls[arg];
      SetOfIs(req, arg, l);
      assert Labeled(req, arg, l);
    }
    if arg, l :| Labeled(req, arg, l) {
      SetOfIs(req, arg, l);
      assert arg in ls;
    }
  }

  /** The rule is about this call: its resource pattern matches, and one of its action patterns if
      it has any. A call without labels concerns strict rules only. */
  ghost predicate Concerns(r: TaintRule, req: Request)
  {
    && GlobMatch(r.resource, req.resource)
    && (r.actions == [] || exists a :: a in r.actions && GlobMatch(a, req.action))
    && (r.strict || exists arg, l :: Labeled(req, arg, l))
  }

  lemma ConcernsIs(r: TaintRule, req: Request)
    ensures Applies(r, req, LabelSets(req.provenance)) <==> Concerns(r, req)
  {
    UnlabeledIs(req);
    if Covers(r.actions, req.action) {
      var i :| 0 <= i < |r.actions| && GlobMatch(r.actions[i], req.action);
      assert r.actions[i] in r.actions;
    }
  }

  lemma ArgIs(r: TaintRule, req: Request, n: string)
    ensures ArgFails(r, n, LabelSets(req.provenance)) <==>
            n in r.args && Breached(r.strict, OnArg(req, n), r.args[n])
  {
    if n in r.args {
      var ls := LabelSets(req.provenance);
      forall l
        ensures l in SetOf(ls, n) + SetOf(ls, CALL_LABELS) <==> OnArg(req, n)(l)
      {
        SetOfIs(req, n, l);
        SetOfIs(req, "*", l);
      }
      BreachedIs(r.strict, SetOf(ls, n) + SetOf(ls, CALL_LABELS), OnArg(req, n), r.args[n]);
    }
  }

  /** A rule is violated exactly when it is about the call and is breached by the labels of the
      call as a whole, or by those of an argument that it names. */
  lemma ViolatedIff(r: TaintRule, req: Request)
    ensures Violated(r, req, LabelSets(req.provenance)) <==>
            && Concerns(r, req)
            && (|| Breached(r.strict, Anywhere(req), ArgRule(r.forbid, r.require))
                || exists n :: n in r.args && Breached(r.strict, OnArg(req, n), r.args[n]))
  {
    ConcernsIs(r, req);
    forall l
      ensures l in AllLabels(LabelSets(req.provenance)) <==> Anywhere(req)(l)
    {
      AllLabelsIs(req, l);
    }
    BreachedIs(r.strict, AllLabels(LabelSets(req.provenance)), Anywhere(req), ArgRule(r.forbid, r.require));
    forall n
      ensures ArgFails(r, n, LabelSets(req.provenance)) <==>
              n in r.args && Breached(r.strict, OnArg(req, n), r.args[n])
    {
      ArgIs(r, req, n);
    }
  }

  // ---------------------------------------------------------------- the tier of an escalation

  lemma {:induction false} NamedTierIs(rules: seq<TaintRule>, id: string, i: nat)
    requires i <= |rules|
    ensures var t := NamedTier(rules, id, i);
            if t.Some?
            then exists j :: && i <= j < |rules| && RuleId(rules[j], j) == id && rules[j].tier == t.value != ""
                             && forall m :: i <= m < j ==> RuleId(rules[m], m) != id || rules[m].tier == ""
            else forall j :: i <= j < |rules| ==> RuleId(rules[j], j) != id || rules[j].tier == ""
    decreases |rules| - i
  {
    if i < |rules| && !(RuleId(rules[i], i) == id && rules[i].tier != "") {
      NamedTierIs(rules, id, i + 1);
    }
  }

  /** The tier of an escalation for taint is named by the first rule that carries the id of the
      first escalating match and names one; without such a rule it is "taint". */
  lemma {:induction false} TaintTierMeaning(rules: seq<TaintRule>, matches: seq<TaintMatch>, k: nat)
    requires k < |matches| && matches[k].effect == Escalate
    requires forall j :: 0 <= j < k ==> matches[j].effect != Escalate
    ensures var tier, id := TaintTier(rules, matches), matches[k].rule;
            if exists i :: 0 <= i < |rules| && RuleId(rules[i], i) == id && rules[i].tier != ""
            then exists i :: && 0 <= i < |rules| && RuleId(rules[i], i) == id && rules[i].tier == tier != ""
                             && forall m :: 0 <= m < i ==> RuleId(rules[m], m) != id || rules[m].tier == ""
            else tier == "taint"
    decreases k
  {
    if k > 0 {
      TaintTierMeaning(rules, matches[1..], k - 1);
    } else {
      NamedTierIs(rules, matches[0].rule, 0);
    }
  }
}
