/**
 Conditions and risk tiers, told by what they compare: attributes of the request with plain
 values or with other attributes, minutes of the day, points in time and amounts.
 */
module PolicyConditions {
  import opened Options
  import opened Glob
  import opened Templates
  import opened PolicyModel
  import opened Taint
  import opened PolicyEval
  import opened PolicyOutcome

  // ---------------------------------------------------------------- values

  lemma {:induction false} WantMember(values: seq<string>, vars: Vars, x: string)
    ensures x in Want(values, vars) <==>
            exists v :: v in values && Names(v) <= vars.Keys && x == Expanded(v, vars, false)
  {
    if values != [] {
      var n := |values| - 1;
      WantMember(values[..n], vars, x);
      assert values == values[..n] + [values[n]];
      if v :| v in values && Names(v) <= vars.Keys && x == Expanded(v, vars, false) {
        assert v in values[..n] || v == values[n];
      }
      assert Want(values, vars) == Want(values[..n], vars)
          + if Names(values[n]) <= vars.Keys then [Expanded(values[n], vars, false)] else [];
    }
  }

  /** A membership condition holds exactly when the attribute is there and equals a value whose
      references can all be resolved. */
  lemma InIff(lib: Library, req: Request, key: string, values: seq<string>)
    requires key != "ip"
    ensures Holds(lib, Condition(In, key, values), req) <==>
            && key in req.attributes
            && exists v :: v in values && Names(v) <= req.attributes.Keys
                           && req.attributes[key] == Expanded(v, req.attributes, false)
  {
    if key in req.attributes {
      WantMember(values, req.attributes, req.attributes[key]);
    }
  }

  /** With plain values it is membership in the list as written. */
  lemma InPlain(lib: Library, req: Request, key: string, values: seq<string>)
    requires key != "ip" && forall v :: v in values ==> '{' !in v
    ensures Holds(lib, Condition(In, key, values), req) <==> key in req.attributes && req.attributes[key] in values
  {
    InIff(lib, req, key, values);
    forall v | v in values
      ensures Expanded(v, req.attributes, false) == v && Names(v) == {}
    {
      ExpandedPlain(v, req.attributes, false);
    }
  }

  lemma OneValue(v: string, vars: Vars)
    ensures Want([v], vars) == if Names(v) <= vars.Keys then [Expanded(v, vars, false)] else []
  {
    assert [v][..0] == [];
  }

  /** A comparison with a plain value. */
  lemma EqualsPlain(lib: Library, req: Request, key: string, v: string)
    requires key != "ip" && '{' !in v
    ensures Holds(lib, Condition(Equals, key, [v]), req) <==> key in req.attributes && req.attributes[key] == v
  {
    OneValue(v, req.attributes);
    ExpandedPlain(v, req.attributes, false);
  }

  /** A comparison of two attributes: both are there and are equal. */
  lemma EqualsReference(lib: Library, req: Request, key: string, name: string)
    requires key != "ip" && name != "" && NameBytes(name)
    ensures Holds(lib, Condition(Equals, key, ["{" + name + "}"]), req) <==>
            key in req.attributes && name in req.attributes && req.attributes[key] == req.attributes[name]
  {
    var v := "{" + name + "}";
    assert v == v + "";
    OneValue(v, req.attributes);
    ReferenceNames(name, "");
    assert Names(v) == {name};
    if name in req.attributes {
      ReplacesReference(name, "", req.attributes, false);
      assert Expanded(v, req.attributes, false) == req.attributes[name] + "" == req.attributes[name];
    }
  }

  /** The client address is compared under the key "ip", not an attribute of that name. */
  lemma AddressRead(lib: Library, req: Request, v: string, cidrs: seq<string>)
    requires '{' !in v
    ensures Holds(lib, Condition(Equals, "ip", [v]), req) <==> req.ip != "" && req.ip == v
    ensures Holds(lib, Condition(IpCidr, "ip", cidrs), req) <==>
            && req.ip != "" && lib.parseAddr(req.ip).Some?
            && exists c :: c in cidrs && lib.inPrefix(c, lib.parseAddr(req.ip).value)
  {
    OneValue(v, req.attributes);
    ExpandedPlain(v, req.attributes, false);
    assert forall i :: 0 <= i < |cidrs| ==> cidrs[i] in cidrs;
  }

  // ---------------------------------------------------------------- time

  const DAY := 1440

  /** Clock times and minutes of the day are minutes from midnight. */
  ghost predicate Clocks(lib: Library)
  {
    && (forall v :: lib.parseClock(v).Some? ==> 0 <= lib.parseClock(v).value < DAY)
    && forall t :: 0 <= lib.minuteOfDay(t) < DAY
  }

  /** A daily window holds when less time has passed since its start than from its start to its
      end, around the clock. */
  lemma DailyIff(lib: Library, req: Request, start: string, end: string)
    requires Clocks(lib) && lib.parseClock(start).Some? && lib.parseClock(end).Some?
    ensures var a, b, m := lib.parseClock(start).value, lib.parseClock(end).value, lib.minuteOfDay(req.now);
            Holds(lib, Condition(DailyWindow, "", [start, end]), req) <==> (m - a) % DAY < (b - a) % DAY
  {
    var a, b, m := lib.parseClock(start).value, lib.parseClock(end).value, lib.minuteOfDay(req.now);
    AroundTheClock(m - a);
    AroundTheClock(b - a);
  }

  lemma AroundTheClock(d: int)
    requires -DAY < d < DAY
    ensures d % DAY == if d >= 0 then d else d + DAY
  {
  }

  /** A window that spans a point in time is split there: exactly one half holds when it does,
      and neither when it does not. Its start belongs to it and its end does not. */
  lemma WindowSplits(lib: Library, req: Request, start: string, mid: string, end: string)
    requires mid != "" && lib.parseTime(mid).Some?
    requires start != "" ==> lib.parseTime(start).Some? && lib.parseTime(start).value <= lib.parseTime(mid).value
    requires end != "" ==> lib.parseTime(end).Some? && lib.parseTime(mid).value <= lib.parseTime(end).value
    ensures var whole := Holds(lib, Condition(TimeWindow, "", [start, end]), req);
            var first := Holds(lib, Condition(TimeWindow, "", [start, mid]), req);
            var second := Holds(lib, Condition(TimeWindow, "", [mid, end]), req);
            (whole <==> first || second) && !(first && second)
    ensures req.now == lib.parseTime(mid).value ==> !Holds(lib, Condition(TimeWindow, "", [start, mid]), req)
  {
  }

  // ---------------------------------------------------------------- amounts

  /** One tier that asks for an approval from an amount on. */
  ghost predicate OnlyAmount(e: Evaluator, amount: real)
  {
    amount > 0.0 && e.taint == []
    && exists name :: e.risk == [RiskTier(name, amount, "", [], None, Approval)]
  }

  /** With such a tier, a request that an allow covers and nothing else does is allowed below the
      amount and escalated from the amount on. */
  lemma AmountThreshold(e: Evaluator, req: Request, policies: seq<Option<Policy>>, amount: real)
    requires OnlyAmount(e, amount) && Applying(e, req, policies, Allow)
    requires !Applying(e, req, policies, Deny) && !Applying(e, req, policies, Escalate)
    ensures Decided(e, req, policies).effect == if req.amount < amount then Some(Allow) else Some(Escalate)
  {
    AllowedIff(e, req, policies);
    DeniedIff(e, req, policies);
    assert e.risk[0] in e.risk;
  }

  /** A tier matches when every field that it sets agrees with the request. */
  lemma TierIff(t: RiskTier, req: Request)
    ensures TierMatches(t, req) <==>
            && (t.minAmount <= 0.0 || t.minAmount <= req.amount) && t.currency in {"", req.currency}
            && (|t.dataClasses| == 0 || exists i :: 0 <= i < |t.dataClasses| && t.dataClasses[i] == req.dataClass)
            && t.irreversible in {None, Some(req.irreversible)}
  {
    assert t.dataClasses == [] <==> |t.dataClasses| == 0;
    assert t.irreversible.None? || t.irreversible == Some(t.irreversible.value);
  }

  lemma TierGrows(t: RiskTier, req: Request, amount: real)
    requires req.amount <= amount && TierMatches(t, req)
    ensures TierMatches(t, req.(amount := amount))
  {
  }

  /** A larger amount never turns a refusal into an allow. */
  lemma AmountNeverLoosens(e: Evaluator, req: Request, policies: seq<Option<Policy>>, amount: real)
    requires req.amount <= amount
    ensures Decided(e, req.(amount := amount), policies).allowed ==> Decided(e, req, policies).allowed
  {
    var more := req.(amount := amount);
    AllowedIff(e, req, policies);
    AllowedIff(e, more, policies);
    forall st
      ensures StatementMatches(e.lib, st, more) <==> StatementMatches(e.lib, st, req)
    {
      AmountAside(e.lib, st, req, amount);
    }
    forall r
      ensures Violated(r, more, LabelSets(req.provenance)) <==> Violated(r, req, LabelSets(req.provenance))
    {
      assert Applies(r, more, LabelSets(req.provenance)) <==> Applies(r, req, LabelSets(req.provenance));
    }
    forall t | TierMatches(t, req)
      ensures TierMatches(t, more)
    {
      TierGrows(t, req, amount);
    }
  }

  lemma AmountAside(lib: Library, st: Statement, req: Request, amount: real)
    ensures StatementMatches(lib, st, req.(amount := amount)) <==> StatementMatches(lib, st, req)
  {
    var more := req.(amount := amount);
    MatchesIff(lib, st, req);
    MatchesIff(lib, st, more);
    forall c
      ensures Holds(lib, c, more) <==> Holds(lib, c, req)
    {
      assert Subject(c, more) == Subject(c, req);
    }
    assert forall r :: Unresolved(r, more) <==> Unresolved(r, req);
  }
}
