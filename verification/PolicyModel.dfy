/**
 Policy documents, requests, and when a statement matches a request.
 Policies are taken to have passed validation, so effects and operators are closed sets.
 */
module PolicyModel {
  import opened Options
  import opened Glob
  import opened Lists

  datatype Effect = Allow | Deny | Escalate

  datatype Op = Equals | NotEquals | In | NotIn | IpCidr | NotIpCidr | TimeWindow | DailyWindow

  datatype Requirement = Unset | NoRequirement | Approval | StepUp

  datatype Condition = Condition(op: Op, key: string, values: seq<string>)

  datatype Statement = Statement(
    id: string, effect: Effect, actions: seq<string>, resources: seq<string>,
    conditions: seq<Condition>, tier: string, require: Requirement)

  datatype Policy = Policy(id: string, statements: seq<Statement>)

  datatype Request = Request(
    action: string, resource: string, attributes: Vars, ip: string, now: int,
    amount: real, currency: string, dataClass: string, irreversible: bool,
    provenance: map<string, seq<string>>)

  /** Parsing done by Go's standard library: addresses, timestamps and clock times. `inPrefix`
      says whether a text is a prefix and contains an address. */
  datatype Library = Library(
    parseAddr: string -> Option<string>,
    inPrefix: (string, string) -> bool,
    parseTime: string -> Option<int>,
    parseClock: string -> Option<int>,
    minuteOfDay: int -> int)

  // ---------------------------------------------------------------- conditions

  /** The values that expand completely. */
  function Want(values: seq<string>, vars: Vars): seq<string>
  {
    if values == [] then []
    else
      var rest := Want(values[..|values| - 1], vars);
      var v := values[|values| - 1];
      if Names(v) <= vars.Keys then rest + [Expanded(v, vars, false)] else rest
  }

  /** The address parses and lies in one of the prefixes; prefixes that do not parse contain
      nothing. */
  predicate InCidr(lib: Library, cidrs: seq<string>, ip: string)
  {
    var addr := lib.parseAddr(ip);
    addr.Some? && exists i :: 0 <= i < |cidrs| && lib.inPrefix(cidrs[i], addr.value)
  }

  method CheckCidr(lib: Library, cidrs: seq<string>, ip: string) returns (r: bool)
    ensures r <==> InCidr(lib, cidrs, ip)
  {
    var addr := lib.parseAddr(ip);
    if addr.None? {
      return false;
    }
    for i := 0 to |cidrs|
      invariant forall j :: 0 <= j < i ==> !lib.inPrefix(cidrs[j], addr.value)
    {
      if lib.inPrefix(cidrs[i], addr.value) {
        return true;
      }
    }
    return false;
  }

  predicate InAbsoluteWindow(lib: Library, v: seq<string>, now: int)
  {
    && |v| == 2
    && (v[0] != "" ==> lib.parseTime(v[0]).Some? && lib.parseTime(v[0]).value <= now)
    && (v[1] != "" ==> lib.parseTime(v[1]).Some? && now < lib.parseTime(v[1]).value)
  }

  predicate InDailyWindow(lib: Library, v: seq<string>, now: int)
  {
    && |v| == 2
    && lib.parseClock(v[0]).Some? && lib.parseClock(v[1]).Some?
    && var start, end, cur := lib.parseClock(v[0]).value, lib.parseClock(v[1]).value, lib.minuteOfDay(now);
       if start <= end then start <= cur < end else start <= cur || cur < end
  }

  /** The attribute a condition looks at; "ip" reads the client address. */
  function Subject(c: Condition, req: Request): Option<string>
  {
    if c.key == "ip" then (if req.ip != "" then Some(req.ip) else None)
    else if c.key in req.attributes then Some(req.attributes[c.key]) else None
  }

  /** What a condition means. */
  predicate Holds(lib: Library, c: Condition, req: Request)
  {
    var val, want := Subject(c, req), Want(c.values, req.attributes);
    match c.op
    case TimeWindow => InAbsoluteWindow(lib, c.values, req.now)
    case DailyWindow => InDailyWindow(lib, c.values, req.now)
    case Equals => val.Some? && want == [val.value]
    case NotEquals => val.None? || want != [val.value]
    case In => val.Some? && val.value in want
    case NotIn => val.None? || val.value !in want
    case IpCidr => val.Some? && InCidr(lib, c.values, val.value)
    case NotIpCidr => val.None? || !InCidr(lib, c.values, val.value)
  }

  /** The evaluation of one condition, building the expanded values in a loop. */
  method CheckCondition(lib: Library, c: Condition, req: Request) returns (r: bool)
    ensures r <==> Holds(lib, c, req)
  {
    if c.op == TimeWindow {
      return InAbsoluteWindow(lib, c.values, req.now);
    }
    if c.op == DailyWindow {
      return InDailyWindow(lib, c.values, req.now);
    }
    var val, present := "", c.key in req.attributes;
    if present {
      val := req.attributes[c.key];
    }
    if c.key == "ip" {
      val, present := req.ip, req.ip != "";
    }
    var want := [];
    for i := 0 to |c.values|
      invariant want == Want(c.values[..i], req.attributes)
    {
      assert c.values[..i + 1][..i] == c.values[..i];
      var x, ok := Expand(c.values[i], req.attributes, false);
      if ok {
        want := want + [x];
      }
    }
    assert c.values[..|c.values|] == c.values;
    if c.op == IpCidr || c.op == NotIpCidr {
      var inside := CheckCidr(lib, c.values, val);
      return if c.op == IpCidr then present && inside else !present || !inside;
    }
    match c.op
    case Equals => return present && |want| == 1 && val == want[0];
    case NotEquals => return !present || |want| != 1 || val != want[0];
    case In => return present && val in want;
    case NotIn => return !present || val !in want;
  }

  function Negated(op: Op): Op
    requires !op.TimeWindow? && !op.DailyWindow?
  {
    match op
    case Equals => NotEquals
    case NotEquals => Equals
    case In => NotIn
    case NotIn => In
    case IpCidr => NotIpCidr
    case NotIpCidr => IpCidr
  }

  /** Of an operator and its `not_` form exactly one holds, also when the attribute is
      missing or a value does not expand; and two daily windows with swapped ends
      split the day between them. */
  lemma ConditionsComplement(lib: Library, c: Condition, req: Request)
    ensures !c.op.TimeWindow? && !c.op.DailyWindow? ==>
              (Holds(lib, c.(op := Negated(c.op)), req) <==> !Holds(lib, c, req))
    ensures c.op.DailyWindow? && |c.values| == 2
            && lib.parseClock(c.values[0]).Some? && lib.parseClock(c.values[1]).Some?
            && lib.parseClock(c.values[0]) != lib.parseClock(c.values[1]) ==>
              (Holds(lib, c.(values := [c.values[1], c.values[0]]), req) <==> !Holds(lib, c, req))
  {
    if !c.op.TimeWindow? && !c.op.DailyWindow? {
      var n := c.(op := Negated(c.op));
      assert Subject(n, req) == Subject(c, req);
    }
  }

  // ---------------------------------------------------------------- statements

  ghost predicate Covers(patterns: seq<string>, s: string)
  {
    exists i :: 0 <= i < |patterns| && GlobMatch(patterns[i], s)
  }

  /** One resource pattern against the request. An unresolved variable makes the
      pattern match nothing, or everything for a deny. */
  ghost predicate ResourceCovers(pattern: string, req: Request, unresolved: bool)
  {
    if Names(pattern) <= req.attributes.Keys
    then GlobMatch(Expanded(pattern, req.attributes, true), req.resource)
    else unresolved
  }

  ghost predicate MatchesResource(st: Statement, req: Request, unresolved: bool)
  {
    exists i :: 0 <= i < |st.resources| && ResourceCovers(st.resources[i], req, unresolved)
  }

  ghost predicate MatchesTarget(st: Statement, req: Request)
  {
    Covers(st.actions, req.action) && MatchesResource(st, req, st.effect == Deny)
  }

  ghost predicate StatementMatches(lib: Library, st: Statement, req: Request)
  {
    MatchesTarget(st, req) && forall i :: 0 <= i < |st.conditions| ==> Holds(lib, st.conditions[i], req)
  }

  method AnyMatch(patterns: seq<string>, s: string) returns (r: bool)
    ensures r <==> Covers(patterns, s)
  {
    for i := 0 to |patterns|
      invariant forall j :: 0 <= j < i ==> !GlobMatch(patterns[j], s)
    {
      var m, _ := Match(patterns[i], s);
      if m {
        return true;
      }
    }
    return false;
  }

  method CheckResource(st: Statement, req: Request, unresolved: bool) returns (r: bool)
    ensures r <==> MatchesResource(st, req, unresolved)
  {
    for i := 0 to |st.resources|
      invariant forall j :: 0 <= j < i ==> !ResourceCovers(st.resources[j], req, unresolved)
    {
      var exp, ok := Expand(st.resources[i], req.attributes, true);
      if !ok {
        if unresolved {
          return true;
        }
        continue;
      }
      var m, _ := Match(exp, req.resource);
      if m {
        return true;
      }
    }
    return false;
  }

  method CheckTarget(st: Statement, req: Request) returns (r: bool)
    ensures r <==> MatchesTarget(st, req)
  {
    r := AnyMatch(st.actions, req.action);
    if r {
      r := CheckResource(st, req, st.effect == Deny);
    }
  }

  method CheckStatement(lib: Library, st: Statement, req: Request) returns (r: bool)
    ensures r <==> StatementMatches(lib, st, req)
  {
    r := CheckTarget(st, req);
    if !r {
      return false;
    }
    for i := 0 to |st.conditions|
      invariant forall j :: 0 <= j < i ==> Holds(lib, st.conditions[j], req)
    {
      var h := CheckCondition(lib, st.conditions[i], req);
      if !h {
        return false;
      }
    }
    return true;
  }

  // ---------------------------------------------------------------- statement identifiers

  function Decimal(n: nat): (s: string)
    ensures s != ""
  {
    if n < 10 then [('0' as int + n) as char] else Decimal(n / 10) + Decimal(n % 10)
  }

  /** A statement in place: the id of its policy, its position there, and itself. */
  datatype Located = Located(policyId: string, index: nat, stmt: Statement)

  /** The id reported for a statement: its own, or its position when unnamed. */
  function StatementId(l: Located): (id: string)
    ensures id != ""
  {
    if l.stmt.id != "" then l.stmt.id else "stmt-" + Decimal(l.index)
  }

  function LocateAll(p: Policy): (ls: seq<Located>)
    ensures |ls| == |p.statements|
    ensures forall i :: 0 <= i < |ls| ==> ls[i] == Located(p.id, i, p.statements[i])
  {
    seq(|p.statements|, i requires 0 <= i < |p.statements| => Located(p.id, i, p.statements[i]))
  }

  /** The statements of one policy of a list; nil policies have none. */
  function Place(): Option<Policy> -> seq<Located>
  {
    (p: Option<Policy>) => if p.Some? then LocateAll(p.value) else []
  }

  /** Every statement of a policy list, in policy order. */
  ghost function Flatten(policies: seq<Option<Policy>>): seq<Located>
  {
    FlatMap(policies, Place())
  }
}
