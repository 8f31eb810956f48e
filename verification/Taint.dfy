/**
 Taint rules: which provenance labels may flow into a tool call.

 Raw provenance is a map of label lists walked in arbitrary order. The verdict, with
 its matches in order, is proved to be a function of the label sets alone.
 */
module Taint {
  import opened Options
  import opened Orders
  import opened Glob
  import opened PolicyModel

  const CALL_LABELS := "*"

  datatype ArgRule = ArgRule(forbid: seq<string>, require: seq<string>)

  datatype TaintRule = TaintRule(
    id: string, resource: string, actions: seq<string>, forbid: seq<string>, require: seq<string>,
    args: map<string, ArgRule>, deny: bool, tier: string, strict: bool)

  datatype Kind = Forbid | Require

  datatype TaintMatch = TaintMatch(rule: string, kind: Kind, arg: string, labels: seq<string>, effect: Effect)

  datatype Verdict = Clean | ToEscalate | ToDeny

  datatype TaintVerdict = TaintVerdict(verdict: Verdict, matches: seq<TaintMatch>, labels: map<string, seq<string>>)

  predicate MatchLabel(pattern: string, l: string)
  {
    pattern == "*"
    || (if pattern != "" && pattern[|pattern| - 1] == '*'
        then pattern[..|pattern| - 1] <= l
        else pattern == l)
  }

  function RuleEffect(r: TaintRule): Effect { if r.deny then Deny else Escalate }

  function RuleId(r: TaintRule, i: nat): string { if r.id != "" then r.id else Decimal(i) }

  // ---------------------------------------------------------------- label sets

  type Labels = map<string, set<string>>

  /** The non-empty labels of each argument that has any. */
  function LabelSets(raw: map<string, seq<string>>): Labels
  {
    map arg | arg in raw && NonBlank(raw[arg]) != {} :: NonBlank(raw[arg])
  }

  function NonBlank(labels: seq<string>): set<string> { set l | l in labels && l != "" }

  function SetOf(ls: Labels, arg: string): set<string> { if arg in ls then ls[arg] else {} }

  function AllLabels(ls: Labels): set<string> { set arg, l | arg in ls && l in ls[arg] :: l }

  ghost function Listing(s: set<string>): (r: seq<string>)
    ensures forall l :: l in r <==> l in s
    ensures |r| == |s|
  {
    LexIsLinear(s);
    Arrange(s, LexLess)
  }

  ghost function Normal(ls: Labels): map<string, seq<string>>
  {
    map arg | arg in ls :: Listing(ls[arg])
  }

  function At(prov: map<string, seq<string>>, arg: string): seq<string> { if arg in prov then prov[arg] else [] }

  /** prov lists each label set without repeats. */
  ghost predicate Lists(prov: map<string, seq<string>>, ls: Labels)
  {
    && prov.Keys == ls.Keys
    && forall arg {:trigger At(prov, arg)} :: Distinct(At(prov, arg)) && Elements(At(prov, arg)) == SetOf(ls, arg)
  }

  lemma NormalLists(ls: Labels)
    ensures Lists(Normal(ls), ls)
  {
    forall arg
      ensures Distinct(At(Normal(ls), arg)) && Elements(At(Normal(ls), arg)) == SetOf(ls, arg)
    {
      if arg in ls {
        LexIsLinear(ls[arg]);
        ArrangeIncreases(ls[arg], LexLess);
      }
    }
  }

  /** The labels that are not blank, each once. */
  method DropBlanks(labels: seq<string>) returns (clean: seq<string>)
    ensures Distinct(clean) && Elements(clean) == NonBlank(labels)
  {
    clean := [];
    for i := 0 to |labels|
      invariant Distinct(clean)
      invariant forall l :: l in clean <==> l in labels[..i] && l != ""
    {
      if labels[i] != "" && labels[i] !in clean {
        clean := clean + [labels[i]];
      }
    }
    assert labels[..|labels|] == labels;
  }

  /** Appends the labels that are not there yet. */
  method AppendNew(start: seq<string>, labels: seq<string>) returns (out: seq<string>)
    requires Distinct(start)
    ensures Distinct(out) && Elements(out) == Elements(start) + Elements(labels)
  {
    out := start;
    for i := 0 to |labels|
      invariant Distinct(out)
      invariant forall l :: l in out <==> l in start || l in labels[..i]
    {
      if labels[i] !in out {
        out := out + [labels[i]];
      }
    }
    assert labels[..|labels|] == labels;
  }

  lemma SortListing(q: seq<string>)
    requires Distinct(q)
    ensures Sort(q, LexLess) == Listing(Elements(q))
  {
    LexIsLinear(Elements(q));
    SortArranges(q, LexLess);
  }

  /** Walks the arguments in arbitrary order, dropping blank and repeated labels and
      sorting the rest. */
  method NormalizeProvenance(raw: map<string, seq<string>>) returns (out: map<string, seq<string>>)
    ensures out == Normal(LabelSets(raw))
  {
    out := map[];
    var todo := raw.Keys;
    while todo != {}
      invariant todo <= raw.Keys
      invariant forall arg :: arg in out <==> arg in LabelSets(raw) && arg !in todo
      invariant forall arg :: arg in out ==> out[arg] == Listing(LabelSets(raw)[arg])
      decreases |todo|
    {
      var arg :| arg in todo;
      todo := todo - {arg};
      var clean := DropBlanks(raw[arg]);
      if clean == [] {
        continue;
      }
      assert clean[0] in Elements(clean);
      SortListing(clean);
      out := out[arg := Sort(clean, LexLess)];
    }
    assert out.Keys == LabelSets(raw).Keys;
  }

  lemma ListedBack(labels: set<string>)
    requires "" !in labels
    ensures NonBlank(Listing(labels)) == labels
  {
  }

  /** Normalizing keeps exactly the label sets, so it is idempotent. */
  lemma NormalizeIdempotent(raw: map<string, seq<string>>)
    ensures var out := Normal(LabelSets(raw));
            LabelSets(out) == LabelSets(raw) && Normal(LabelSets(out)) == out
  {
    var ls := LabelSets(raw);
    forall arg | arg in ls
      ensures NonBlank(Listing(ls[arg])) == ls[arg]
    {
      ListedBack(ls[arg]);
    }
    assert LabelSets(Normal(ls)) == ls;
  }

  // ---------------------------------------------------------------- one check

  predicate MatchesAny(patterns: seq<string>, l: string)
  {
    exists i :: 0 <= i < |patterns| && MatchLabel(patterns[i], l)
  }

  predicate HasLabelFor(labels: seq<string>, pattern: string)
  {
    exists i :: 0 <= i < |labels| && MatchLabel(pattern, labels[i])
  }

  function Bad(labels: seq<string>, forbid: seq<string>): seq<string>
  {
    if labels == [] then []
    else
      var l := labels[|labels| - 1];
      Bad(labels[..|labels| - 1], forbid) + (if MatchesAny(forbid, l) then [l] else [])
  }

  function Missing(labels: seq<string>, require: seq<string>): seq<string>
  {
    if require == [] then []
    else
      var p := require[|require| - 1];
      Missing(labels, require[..|require| - 1]) + (if HasLabelFor(labels, p) then [] else [p])
  }

  /** The violations one argument contributes, forbid before require. */
  function Violations(r: TaintRule, id: string, arg: string, labels: seq<string>, spec: ArgRule): seq<TaintMatch>
  {
    var bad := Bad(labels, spec.forbid);
    var missing := if labels == [] && !r.strict then [] else Missing(labels, spec.require);
    (if bad != [] then [TaintMatch(id, Forbid, arg, bad, RuleEffect(r))] else [])
    + (if missing != [] then [TaintMatch(id, Require, arg, missing, RuleEffect(r))] else [])
  }

  lemma {:induction false} NothingForbidden(labels: seq<string>, forbid: seq<string>)
    ensures Bad(labels, forbid) == [] <==> forall l :: l in labels ==> !MatchesAny(forbid, l)
  {
    if labels != [] {
      var n := |labels| - 1;
      NothingForbidden(labels[..n], forbid);
      assert labels == labels[..n] + [labels[n]];
    }
  }

  lemma {:induction false} NothingMissing(labels: seq<string>, require: seq<string>)
    ensures Missing(labels, require) == [] <==> forall p :: p in require ==> HasLabelFor(labels, p)
  {
    if require != [] {
      var n := |require| - 1;
      NothingMissing(labels, require[..n]);
      assert require == require[..n] + [require[n]];
    }
  }

  method BadLabels(labels: seq<string>, forbid: seq<string>) returns (bad: seq<string>)
    ensures bad == Bad(labels, forbid)
  {
    bad := [];
    for i := 0 to |labels|
      invariant bad == Bad(labels[..i], forbid)
    {
      assert labels[..i + 1][..i] == labels[..i];
      if MatchesAny(forbid, labels[i]) {
        bad := bad + [labels[i]];
      }
    }
    assert labels[..|labels|] == labels;
  }

  method MissingPatterns(labels: seq<string>, require: seq<string>) returns (missing: seq<string>)
    ensures missing == Missing(labels, require)
  {
    missing := [];
    for i := 0 to |require|
      invariant missing == Missing(labels, require[..i])
    {
      assert require[..i + 1][..i] == require[..i];
      if !HasLabelFor(labels, require[i]) {
        missing := missing + [require[i]];
      }
    }
    assert require[..|require|] == require;
  }

  method CheckLabels(r: TaintRule, id: string, arg: string, labels: seq<string>, spec: ArgRule)
    returns (out: seq<TaintMatch>)
    ensures out == Violations(r, id, arg, labels, spec)
  {
    out := [];
    NothingForbidden(labels, spec.forbid);
    if |spec.forbid| > 0 {
      var bad := BadLabels(labels, spec.forbid);
      if |bad| > 0 {
        out := out + [TaintMatch(id, Forbid, arg, bad, RuleEffect(r))];
      }
    }
    if |spec.require| > 0 {
      if |labels| == 0 && !r.strict {
        return;
      }
      var missing := MissingPatterns(labels, spec.require);
      if |missing| > 0 {
        out := out + [TaintMatch(id, Require, arg, missing, RuleEffect(r))];
      }
    }
  }

  // ---------------------------------------------------------------- all rules

  ghost predicate Applies(r: TaintRule, req: Request, ls: Labels)
  {
    && GlobMatch(r.resource, req.resource)
    && (r.actions != [] ==> Covers(r.actions, req.action))
    && (ls == map[] ==> r.strict)
  }

  /** The pieces contributed by the elements of a list, one after the other. */
  ghost function Collect<T>(xs: seq<T>, piece: (T, nat) -> seq<TaintMatch>): seq<TaintMatch>
  {
    if xs == [] then []
    else Collect(xs[..|xs| - 1], piece) + piece(xs[|xs| - 1], |xs| - 1)
  }

  lemma CollectSnoc<T>(xs: seq<T>, i: nat, piece: (T, nat) -> seq<TaintMatch>)
    requires i < |xs|
    ensures Collect(xs[..i + 1], piece) == Collect(xs[..i], piece) + piece(xs[i], i)
  {
    assert xs[..i + 1][..i] == xs[..i];
  }

  /** What the argument rule for one name contributes. */
  ghost function ArgPiece(r: TaintRule, id: string, ls: Labels): (string, nat) -> seq<TaintMatch>
  {
    (n: string, i: nat) =>
      if n in r.args
      then Violations(r, id, n, Listing(SetOf(ls, n) + SetOf(ls, CALL_LABELS)), r.args[n])
      else []
  }

  ghost function RuleViolations(r: TaintRule, id: string, ls: Labels): seq<TaintMatch>
  {
    Violations(r, id, CALL_LABELS, Listing(AllLabels(ls)), ArgRule(r.forbid, r.require))
    + Collect(Listing(r.args.Keys), ArgPiece(r, id, ls))
  }

  /** What one rule contributes. */
  ghost function RulePiece(req: Request, ls: Labels): (TaintRule, nat) -> seq<TaintMatch>
  {
    (r: TaintRule, i: nat) => if Applies(r, req, ls) then RuleViolations(r, RuleId(r, i), ls) else []
  }

  ghost function AllViolations(rules: seq<TaintRule>, req: Request, ls: Labels): seq<TaintMatch>
  {
    Collect(rules, RulePiece(req, ls))
  }

  function VerdictOf(matches: seq<TaintMatch>): Verdict
  {
    if matches == [] then Clean
    else if exists m :: m in matches && m.effect == Deny then ToDeny
    else ToEscalate
  }

  /** The verdict, from the label sets alone. */
  ghost function TaintOutcome(rules: seq<TaintRule>, req: Request, ls: Labels): Option<TaintVerdict>
  {
    var matches := AllViolations(rules, req, ls);
    if ls == map[] && matches == [] then None
    else Some(TaintVerdict(VerdictOf(matches), matches, Normal(ls)))
  }

  /** The union of all labels, gathered in arbitrary order and sorted. */
  method GatherLabels(ghost ls: Labels, prov: map<string, seq<string>>) returns (all: seq<string>)
    requires Lists(prov, ls)
    ensures all == Listing(AllLabels(ls))
  {
    all := [];
    var todo := prov.Keys;
    while todo != {}
      invariant todo <= prov.Keys && Distinct(all)
      invariant Elements(all) == set arg, l | arg in ls && arg !in todo && l in ls[arg] :: l
      decreases |todo|
    {
      var arg :| arg in todo;
      all := AppendNew(all, At(prov, arg));
      todo := todo - {arg};
    }
    assert Elements(all) == AllLabels(ls);
    SortListing(all);
    all := Sort(all, LexLess);
  }

  /** The labels of one argument with the call labels added, sorted. */
  method ArgLabels(ghost ls: Labels, prov: map<string, seq<string>>, arg: string) returns (labels: seq<string>)
    requires Lists(prov, ls)
    ensures labels == Listing(SetOf(ls, arg) + SetOf(ls, CALL_LABELS))
  {
    labels := AppendNew(At(prov, arg), At(prov, CALL_LABELS));
    SortListing(labels);
    labels := Sort(labels, LexLess);
  }

  method SortedNames(args: map<string, ArgRule>) returns (names: seq<string>)
    ensures names == Listing(args.Keys)
  {
    names := [];
    var todo := args.Keys;
    while todo != {}
      invariant todo <= args.Keys && Distinct(names)
      invariant forall n :: n in names <==> n in args && n !in todo
      decreases |todo|
    {
      var n :| n in todo;
      names, todo := names + [n], todo - {n};
    }
    assert Elements(names) == args.Keys;
    SortListing(names);
    names := Sort(names, LexLess);
  }

  method CheckArg(r: TaintRule, id: string, n: string, i: nat, ghost ls: Labels, prov: map<string, seq<string>>)
    returns (out: seq<TaintMatch>)
    requires Lists(prov, ls) && n in r.args
    ensures out == ArgPiece(r, id, ls)(n, i)
  {
    var labels := ArgLabels(ls, prov, n);
    out := CheckLabels(r, id, n, labels, r.args[n]);
  }

  method CheckArgs(r: TaintRule, id: string, ghost ls: Labels, prov: map<string, seq<string>>)
    returns (out: seq<TaintMatch>)
    requires Lists(prov, ls)
    ensures out == Collect(Listing(r.args.Keys), ArgPiece(r, id, ls))
  {
    var names := SortedNames(r.args);
    ghost var piece := ArgPiece(r, id, ls);
    out := [];
    for i := 0 to |names|
      invariant out == Collect(names[..i], piece)
    {
      var found := CheckArg(r, id, names[i], i, ls, prov);
      CollectSnoc(names, i, piece);
      out := out + found;
    }
    assert names[..|names|] == names;
  }

  method CheckApplies(r: TaintRule, req: Request, ghost ls: Labels, unlabeled: bool) returns (b: bool)
    requires unlabeled <==> ls == map[]
    ensures b <==> Applies(r, req, ls)
  {
    var m, _ := Match(r.resource, req.resource);
    if !m {
      return false;
    }
    if |r.actions| > 0 {
      m := AnyMatch(r.actions, req.action);
      if !m {
        return false;
      }
    }
    return !unlabeled || r.strict;
  }

  /** One rule: the call-level checks, then the arguments in name order. */
  method CheckRule(r: TaintRule, i: nat, req: Request, ghost ls: Labels, prov: map<string, seq<string>>,
                   all: seq<string>)
    returns (out: seq<TaintMatch>)
    requires Lists(prov, ls)
    requires all == Listing(AllLabels(ls))
    ensures out == RulePiece(req, ls)(r, i)
  {
    assert prov.Keys == ls.Keys;
    var applies := CheckApplies(r, req, ls, prov == map[]);
    if !applies {
      return [];
    }
    var call := CheckLabels(r, RuleId(r, i), CALL_LABELS, all, ArgRule(r.forbid, r.require));
    var args := CheckArgs(r, RuleId(r, i), ls, prov);
    out := call + args;
  }

  /** Rule by rule. */
  method CheckRules(rules: seq<TaintRule>, req: Request, ghost ls: Labels, prov: map<string, seq<string>>)
    returns (matches: seq<TaintMatch>)
    requires Lists(prov, ls)
    ensures matches == AllViolations(rules, req, ls)
  {
    var all := GatherLabels(ls, prov);
    matches := [];
    ghost var piece := RulePiece(req, ls);
    for i := 0 to |rules|
      invariant matches == Collect(rules[..i], piece)
    {
      CollectSnoc(rules, i, piece);
      var found := CheckRule(rules[i], i, req, ls, prov, all);
      matches := matches + found;
    }
    assert rules[..|rules|] == rules;
  }

  /** The strongest effect among the matches. */
  method Strongest(matches: seq<TaintMatch>) returns (verdict: Verdict)
    ensures verdict == VerdictOf(matches)
  {
    verdict := Clean;
    if |matches| > 0 {
      verdict := ToEscalate;
      for i := 0 to |matches|
        invariant verdict == ToEscalate
        invariant forall j :: 0 <= j < i ==> matches[j].effect != Deny
      {
        if matches[i].effect == Deny {
          verdict := ToDeny;
          break;
        }
      }
    }
  }

  /** The verdict and the order of its matches depend on the label sets only: not on the
      walk order of the maps, nor on repeated or blank labels. */
  method EvaluateTaint(rules: seq<TaintRule>, req: Request) returns (v: Option<TaintVerdict>)
    ensures v == TaintOutcome(rules, req, LabelSets(req.provenance))
  {
    ghost var ls := LabelSets(req.provenance);
    var prov := NormalizeProvenance(req.provenance);
    NormalLists(ls);
    var matches := CheckRules(rules, req, ls, prov);
    assert prov.Keys == ls.Keys;
    if prov == map[] && |matches| == 0 {
      return None;
    }
    var verdict := Strongest(matches);
    return Some(TaintVerdict(verdict, matches, prov));
  }

  // ---------------------------------------------------------------- order-free meaning

  /** A check fails: some label is forbidden, or some required pattern has no label
      (an unlabeled argument only counts when the rule is strict). */
  ghost predicate CheckFails(strict: bool, labels: set<string>, spec: ArgRule)
  {
    || (exists l :: l in labels && MatchesAny(spec.forbid, l))
    || ((labels != {} || strict)
        && exists p :: p in spec.require && forall l :: l in labels ==> !MatchLabel(p, l))
  }

  ghost predicate RuleFails(r: TaintRule, ls: Labels)
  {
    || CheckFails(r.strict, AllLabels(ls), ArgRule(r.forbid, r.require))
    || exists n :: n in r.args.Keys && ArgFails(r, n, ls)
  }

  ghost predicate Violated(r: TaintRule, req: Request, ls: Labels)
  {
    Applies(r, req, ls) && RuleFails(r, ls)
  }

  lemma HasLabelMeaning(labels: set<string>, p: string)
    ensures HasLabelFor(Listing(labels), p) <==> exists l :: l in labels && MatchLabel(p, l)
  {
    var q := Listing(labels);
    if HasLabelFor(q, p) {
      var i :| 0 <= i < |q| && MatchLabel(p, q[i]);
      assert q[i] in labels;
    }
    if l :| l in labels && MatchLabel(p, l) {
      assert l in q;
    }
  }

  lemma ListingEmpty(labels: set<string>)
    ensures Listing(labels) == [] <==> labels == {}
  {
    var q := Listing(labels);
    if q != [] {
      assert q[0] in labels;
    }
  }

  lemma ViolationsMeaning(r: TaintRule, id: string, arg: string, labels: set<string>, spec: ArgRule)
    ensures var vs := Violations(r, id, arg, Listing(labels), spec);
            && (vs != [] <==> CheckFails(r.strict, labels, spec))
            && forall m :: m in vs ==> m.effect == RuleEffect(r)
  {
    var q := Listing(labels);
    NothingForbidden(q, spec.forbid);
    NothingMissing(q, spec.require);
    ListingEmpty(labels);
    forall p
      ensures HasLabelFor(q, p) <==> exists l :: l in labels && MatchLabel(p, l)
    {
      HasLabelMeaning(labels, p);
    }
  }

  ghost predicate HasDeny(vs: seq<TaintMatch>) { exists m :: m in vs && m.effect == Deny }

  /** A collection is empty exactly when no element contributes. */
  lemma {:induction false} CollectNonEmpty<T(!new)>(xs: seq<T>, piece: (T, nat) -> seq<TaintMatch>, fires: T -> bool)
    requires forall x, i :: piece(x, i) != [] <==> fires(x)
    ensures Collect(xs, piece) != [] <==> exists x :: x in xs && fires(x)
  {
    if xs != [] {
      var k := |xs| - 1;
      CollectNonEmpty(xs[..k], piece, fires);
      assert xs == xs[..k] + [xs[k]];
      assert piece(xs[k], k) != [] <==> fires(xs[k]);
    }
  }

  lemma {:induction false} CollectHasDeny<T(!new)>(xs: seq<T>, piece: (T, nat) -> seq<TaintMatch>, denies: T -> bool)
    requires forall x, i :: HasDeny(piece(x, i)) <==> denies(x)
    ensures HasDeny(Collect(xs, piece)) <==> exists x :: x in xs && denies(x)
  {
    if xs != [] {
      var k := |xs| - 1;
      CollectHasDeny(xs[..k], piece, denies);
      assert xs == xs[..k] + [xs[k]];
      var before, last := Collect(xs[..k], piece), piece(xs[k], k);
      assert HasDeny(before + last) <==> HasDeny(before) || HasDeny(last);
      assert HasDeny(last) <==> denies(xs[k]);
    }
  }

  /** All pieces carry one effect. */
  lemma {:induction false} CollectEffect<T(!new)>(xs: seq<T>, piece: (T, nat) -> seq<TaintMatch>, eff: Effect)
    requires forall x, i, m :: m in piece(x, i) ==> m.effect == eff
    ensures forall m :: m in Collect(xs, piece) ==> m.effect == eff
  {
    if xs != [] {
      CollectEffect(xs[..|xs| - 1], piece, eff);
    }
  }

  ghost predicate ArgFails(r: TaintRule, n: string, ls: Labels)
  {
    n in r.args && CheckFails(r.strict, SetOf(ls, n) + SetOf(ls, CALL_LABELS), r.args[n])
  }

  lemma ArgPieceMeaning(r: TaintRule, id: string, ls: Labels, n: string, i: nat)
    ensures var vs := ArgPiece(r, id, ls)(n, i);
            (vs != [] <==> ArgFails(r, n, ls)) && forall m :: m in vs ==> m.effect == RuleEffect(r)
  {
    if n in r.args {
      ViolationsMeaning(r, id, n, SetOf(ls, n) + SetOf(ls, CALL_LABELS), r.args[n]);
    }
  }

  lemma ArgsMeaning(r: TaintRule, id: string, ls: Labels)
    ensures var vs := Collect(Listing(r.args.Keys), ArgPiece(r, id, ls));
            && (vs != [] <==> exists n :: n in r.args.Keys && ArgFails(r, n, ls))
            && forall m :: m in vs ==> m.effect == RuleEffect(r)
  {
    var piece, fires := ArgPiece(r, id, ls), n => ArgFails(r, n, ls);
    forall n: string, i: nat
      ensures piece(n, i) != [] <==> fires(n)
      ensures forall m :: m in piece(n, i) ==> m.effect == RuleEffect(r)
    {
      ArgPieceMeaning(r, id, ls, n, i);
    }
    CollectNonEmpty(Listing(r.args.Keys), piece, fires);
    CollectEffect(Listing(r.args.Keys), piece, RuleEffect(r));
  }

  lemma RulePieceMeaning(req: Request, ls: Labels, r: TaintRule, i: nat)
    ensures var vs := RulePiece(req, ls)(r, i);
            && (vs != [] <==> Violated(r, req, ls))
            && (HasDeny(vs) <==> r.deny && Violated(r, req, ls))
  {
    var id := RuleId(r, i);
    ViolationsMeaning(r, id, CALL_LABELS, AllLabels(ls), ArgRule(r.forbid, r.require));
    ArgsMeaning(r, id, ls);
    var vs := RulePiece(req, ls)(r, i);
    assert forall m :: m in vs ==> m.effect == RuleEffect(r);
    if vs != [] {
      assert vs[0] in vs;
    }
  }

  lemma AllViolationsMeaning(rules: seq<TaintRule>, req: Request, ls: Labels)
    ensures AllViolations(rules, req, ls) != [] <==> exists r :: r in rules && Violated(r, req, ls)
    ensures HasDeny(AllViolations(rules, req, ls)) <==> exists r :: r in rules && r.deny && Violated(r, req, ls)
  {
    var piece := RulePiece(req, ls);
    var fires, denies := (r: TaintRule) => Violated(r, req, ls), (r: TaintRule) => r.deny && Violated(r, req, ls);
    forall r: TaintRule, i: nat
      ensures (piece(r, i) != [] <==> fires(r)) && (HasDeny(piece(r, i)) <==> denies(r))
    {
      RulePieceMeaning(req, ls, r, i);
    }
    CollectNonEmpty(rules, piece, fires);
    CollectHasDeny(rules, piece, denies);
  }

  /** The verdict without any order: deny if some applicable deny rule fails, escalate if
      some applicable rule fails, otherwise clean. */
  ghost function Severity(rules: set<TaintRule>, req: Request, ls: Labels): Verdict
  {
    if exists r :: r in rules && r.deny && Violated(r, req, ls) then ToDeny
    else if exists r :: r in rules && Violated(r, req, ls) then ToEscalate
    else Clean
  }

  lemma TaintMeaning(rules: seq<TaintRule>, req: Request, ls: Labels)
    ensures VerdictOf(AllViolations(rules, req, ls)) == Severity(Elements(rules), req, ls)
    ensures TaintOutcome(rules, req, ls).Some? ==>
              TaintOutcome(rules, req, ls).value.verdict == Severity(Elements(rules), req, ls)
    ensures TaintOutcome(rules, req, ls).None? <==> ls == map[] && Severity(Elements(rules), req, ls) == Clean
  {
    AllViolationsMeaning(rules, req, ls);
  }

  function Rank(v: Verdict): nat { match v case Clean => 0 case ToEscalate => 1 case ToDeny => 2 }

  /** Adding rules never makes the verdict milder. */
  lemma MoreRulesNeverMilder(rules: set<TaintRule>, more: set<TaintRule>, req: Request, ls: Labels)
    requires rules <= more
    ensures Rank(Severity(rules, req, ls)) <= Rank(Severity(more, req, ls))
  {
  }

  /** Two requests that differ only in walk order, repeats or blanks of their labels get
      the same verdict with the same matches in the same order. */
  lemma VerdictDependsOnLabelSets(rules: seq<TaintRule>, req: Request, req': Request)
    requires req' == req.(provenance := req'.provenance)
    requires LabelSets(req.provenance) == LabelSets(req'.provenance)
    ensures TaintOutcome(rules, req, LabelSets(req.provenance)) == TaintOutcome(rules, req', LabelSets(req'.provenance))
  {
    var ls := LabelSets(req.provenance);
    CollectSame(rules, RulePiece(req, ls), RulePiece(req', ls));
  }

  lemma {:induction false} CollectSame<T(!new)>(xs: seq<T>, f: (T, nat) -> seq<TaintMatch>,
                                                g: (T, nat) -> seq<TaintMatch>)
    requires forall x, i :: f(x, i) == g(x, i)
    ensures Collect(xs, f) == Collect(xs, g)
  {
    if xs != [] {
      CollectSame(xs[..|xs| - 1], f, g);
    }
  }
}
