/**
 The replay memory for DPoP proofs: a map of deadlines and a queue of identifiers in order
 of acceptance, swept lazily from the front and bounded by a capacity
 (section 4.3 of RFC 9449). Times are nanoseconds.
 */
module DpopReplay {

  datatype Memory = Memory(seen: map<string, int>, order: seq<string>)

  const EMPTY := Memory(map[], [])

  predicate Live(m: Memory, jti: string, now: int) { jti in m.seen && now < m.seen[jti] }

  function DropHead(m: Memory): Memory
    requires m.order != []
  {
    Memory(m.seen - {m.order[0]}, m.order[1..])
  }

  /** Trims front entries whose deadline has passed, up to the first live one. */
  function Sweep(m: Memory, now: int): (r: Memory)
    ensures |r.order| <= |m.order|
    decreases |m.order|
  {
    if m.order == [] || Live(m, m.order[0], now) then m else Sweep(DropHead(m), now)
  }

  /** Drops the oldest entries until there is room for one more. */
  function Trim(m: Memory, cap: nat): (r: Memory)
    requires cap > 0
    ensures |r.order| < cap
    decreases |m.order|
  {
    if |m.order| < cap then m else Trim(DropHead(m), cap)
  }

  function Append(m: Memory, jti: string, deadline: int): Memory
  {
    Memory(m.seen[jti := deadline], m.order + [jti])
  }

  /** The memory after a presentation, and whether it was accepted. */
  function Remember(m: Memory, cap: nat, jti: string, deadline: int, now: int): (Memory, bool)
    requires cap > 0
  {
    if Live(m, jti, now) then (m, false)
    else (Append(Trim(Sweep(m, now), cap), jti, deadline), true)
  }

  class Verifier {
    const jtiCap: nat
    const proofMaxAge: int
    const clockSkewMax: int
    var seen: map<string, int>
    var order: seq<string>

    ghost predicate Valid()
      reads this
    {
      jtiCap > 0 && WellFormed(Memory(seen, order), jtiCap)
    }

    constructor (maxAge: int, skew: int, cap: int)
      ensures Valid() && seen == map[] && order == []
      ensures jtiCap == if cap <= 0 then 4096 else cap
      ensures proofMaxAge == (if maxAge <= 0 then 60 * SECOND else maxAge) && clockSkewMax == skew
    {
      jtiCap := if cap <= 0 then 4096 else cap;
      proofMaxAge := if maxAge <= 0 then 60 * SECOND else maxAge;
      clockSkewMax := skew;
      seen, order := map[], [];
    }

    method RememberJti(jti: string, deadline: int, now: int) returns (accepted: bool)
      requires Valid()
      modifies this
      ensures Valid()
      ensures (Memory(seen, order), accepted) == Remember(old(Memory(seen, order)), jtiCap, jti, deadline, now)
    {
      if jti in seen && now < seen[jti] {
        return false;
      }
      ghost var m := Memory(seen, order);
      while |order| > 0
        invariant Sweep(Memory(seen, order), now) == Sweep(m, now)
        decreases |order|
      {
        var head := order[0];
        if head in seen && now < seen[head] {
          break;
        }
        order := order[1..];
        seen := seen - {head};
      }
      assert Memory(seen, order) == Sweep(m, now);
      while |order| >= jtiCap
        invariant Trim(Memory(seen, order), jtiCap) == Trim(Sweep(m, now), jtiCap)
        decreases |order|
      {
        var head := order[0];
        order := order[1..];
        seen := seen - {head};
      }
      seen := seen[jti := deadline];
      order := order + [jti];
      RememberWellFormed(m, jtiCap, jti, deadline, now);
      return true;
    }

    /** The freshness part of proof verification: the age check, then the replay check.
        `iat` is in Unix seconds, `now` the time of the request and `clock` the reading that
        the replay memory takes for itself. */
    method CheckFresh(jti: string, iat: int, now: int, clock: int) returns (r: Freshness)
      requires Valid()
      modifies this
      ensures Valid()
      ensures r == Expired <==> iat == 0 || !AgeOk(iat, now, proofMaxAge, clockSkewMax)
      ensures r == Malformed <==> r != Expired && jti == ""
      ensures r == Expired || r == Malformed ==> seen == old(seen) && order == old(order)
      ensures r == Fresh || r == Replay ==>
                (Memory(seen, order), r == Fresh)
                == Remember(old(Memory(seen, order)), jtiCap, jti, iat * SECOND + proofMaxAge, clock)
      ensures (Memory(seen, order), r)
              == Present(Rules(proofMaxAge, clockSkewMax, jtiCap), old(Memory(seen, order)), jti, iat, now, clock)
    {
      if iat == 0 {
        return Expired;
      }
      var delta := now - iat * SECOND;
      if delta < 0 {
        delta := -delta;
      }
      if delta > proofMaxAge + clockSkewMax {
        return Expired;
      }
      if jti == "" {
        return Malformed;
      }
      var ok := RememberJti(jti, iat * SECOND + proofMaxAge, clock);
      return if ok then Fresh else Replay;
    }
  }

  const SECOND := 1_000_000_000

  datatype Freshness = Fresh | Replay | Expired | Malformed

  predicate AgeOk(iat: int, now: int, maxAge: int, skew: int)
  {
    -(maxAge + skew) <= now - iat * SECOND <= maxAge + skew
  }

  /** The settings of a verifier. */
  datatype Rules = Rules(maxAge: int, skew: int, cap: nat)

  /** What presenting a proof does to the memory, and its outcome. */
  function Present(rules: Rules, m: Memory, jti: string, iat: int, now: int, clock: int): (Memory, Freshness)
    requires rules.cap > 0
  {
    if iat == 0 || !AgeOk(iat, now, rules.maxAge, rules.skew) then (m, Expired)
    else if jti == "" then (m, Malformed)
    else
      var (m', ok) := Remember(m, rules.cap, jti, iat * SECOND + rules.maxAge, clock);
      (m', if ok then Fresh else Replay)
  }

  // ---------------------------------------------------------------- invariants

  /** Every remembered identifier is queued, and the queue is within its bound. */
  ghost predicate WellFormed(m: Memory, cap: nat)
  {
    |m.order| <= cap && forall j :: j in m.seen ==> j in m.order
  }

  lemma DropKeeps(m: Memory, cap: nat)
    requires m.order != [] && WellFormed(m, cap)
    ensures WellFormed(DropHead(m), cap)
  {
    assert m.order == [m.order[0]] + m.order[1..];
  }

  lemma {:induction false} SweepWellFormed(m: Memory, cap: nat, now: int)
    requires WellFormed(m, cap)
    ensures WellFormed(Sweep(m, now), cap)
    decreases |m.order|
  {
    if m.order != [] && !Live(m, m.order[0], now) {
      DropKeeps(m, cap);
      SweepWellFormed(DropHead(m), cap, now);
    }
  }

  lemma {:induction false} TrimWellFormed(m: Memory, cap: nat)
    requires WellFormed(m, cap) && cap > 0
    ensures WellFormed(Trim(m, cap), cap)
    decreases |m.order|
  {
    if |m.order| >= cap {
      DropKeeps(m, cap);
      TrimWellFormed(DropHead(m), cap);
    }
  }

  lemma RememberWellFormed(m: Memory, cap: nat, jti: string, deadline: int, now: int)
    requires WellFormed(m, cap) && cap > 0
    ensures WellFormed(Remember(m, cap, jti, deadline, now).0, cap)
  {
    SweepWellFormed(m, cap, now);
    TrimWellFormed(Sweep(m, now), cap);
  }

  /** The lazy sweep forgets no live identifier and changes no deadline. */
  lemma {:induction false} SweepKeepsLive(m: Memory, now: int, jti: string)
    ensures Live(m, jti, now) ==> Live(Sweep(m, now), jti, now) && Sweep(m, now).seen[jti] == m.seen[jti]
    ensures jti in Sweep(m, now).seen ==> jti in m.seen && Sweep(m, now).seen[jti] == m.seen[jti]
    decreases |m.order|
  {
    if m.order != [] && !Live(m, m.order[0], now) {
      SweepKeepsLive(DropHead(m), now, jti);
    }
  }

  // ---------------------------------------------------------------- protection

  /** x stands in the queue exactly once, with k acceptances after it. */
  ghost predicate Protected(m: Memory, x: string, deadline: int, k: nat)
  {
    && k < |m.order| && m.order[|m.order| - 1 - k] == x
    && (forall i :: 0 <= i < |m.order| && m.order[i] == x ==> i == |m.order| - 1 - k)
    && x in m.seen && m.seen[x] == deadline
  }

  lemma DropProtects(m: Memory, x: string, deadline: int, k: nat)
    requires Protected(m, x, deadline, k) && m.order[0] != x
    ensures Protected(DropHead(m), x, deadline, k)
  {
    var d := DropHead(m);
    assert forall i :: 0 <= i < |d.order| ==> d.order[i] == m.order[i + 1];
  }

  lemma {:induction false} SweepProtects(m: Memory, x: string, deadline: int, k: nat, now: int)
    requires Protected(m, x, deadline, k) && now < deadline
    ensures Protected(Sweep(m, now), x, deadline, k)
    decreases |m.order|
  {
    if !Live(m, m.order[0], now) {
      DropProtects(m, x, deadline, k);
      SweepProtects(DropHead(m), x, deadline, k, now);
    }
  }

  lemma {:induction false} TrimProtects(m: Memory, x: string, deadline: int, k: nat, cap: nat)
    requires Protected(m, x, deadline, k) && k + 1 < cap
    ensures Protected(Trim(m, cap), x, deadline, k)
    decreases |m.order|
  {
    if |m.order| >= cap {
      assert m.order[0] != x;
      DropProtects(m, x, deadline, k);
      TrimProtects(DropHead(m), x, deadline, k, cap);
    }
  }

  /** While fewer than `cap` identifiers are accepted after x, each further presentation
      keeps x, and one of x itself is refused exactly until its deadline. */
  lemma RememberProtects(m: Memory, cap: nat, x: string, deadline: int, k: nat, jti: string, d: int, now: int)
    requires Protected(m, x, deadline, k) && cap > 0
    ensures jti == x ==> (Remember(m, cap, jti, d, now).1 <==> now >= deadline)
    ensures now < deadline && !Remember(m, cap, jti, d, now).1 ==>
              Protected(Remember(m, cap, jti, d, now).0, x, deadline, k)
    ensures now < deadline && Remember(m, cap, jti, d, now).1 && k + 1 < cap ==>
              Protected(Remember(m, cap, jti, d, now).0, x, deadline, k + 1)
  {
    if now < deadline && Remember(m, cap, jti, d, now).1 && k + 1 < cap {
      SweepProtects(m, x, deadline, k, now);
      var t := Trim(Sweep(m, now), cap);
      TrimProtects(Sweep(m, now), x, deadline, k, cap);
      var r := Append(t, jti, d);
      assert forall i :: 0 <= i < |t.order| ==> r.order[i] == t.order[i];
    }
  }

  // ---------------------------------------------------------------- runs

  datatype Event = Event(jti: string, deadline: int, now: int)

  function Exec(m: Memory, cap: nat, events: seq<Event>): (Memory, seq<bool>)
    requires cap > 0
  {
    if events == [] then (m, [])
    else
      var n := |events| - 1;
      var (m1, rs) := Exec(m, cap, events[..n]);
      var (m2, r) := Remember(m1, cap, events[n].jti, events[n].deadline, events[n].now);
      (m2, rs + [r])
  }

  function Accepted(rs: seq<bool>): nat
  {
    if rs == [] then 0 else Accepted(rs[..|rs| - 1]) + (if rs[|rs| - 1] then 1 else 0)
  }

  ghost predicate AllBefore(events: seq<Event>, deadline: int)
  {
    forall i :: 0 <= i < |events| ==> events[i].now < deadline
  }

  lemma {:induction false} ExecWellFormed(m: Memory, cap: nat, events: seq<Event>)
    requires cap > 0 && WellFormed(m, cap)
    ensures WellFormed(Exec(m, cap, events).0, cap)
    decreases |events|
  {
    if events != [] {
      var n := |events| - 1;
      ExecWellFormed(m, cap, events[..n]);
      RememberWellFormed(Exec(m, cap, events[..n]).0, cap, events[n].jti, events[n].deadline, events[n].now);
    }
  }

  lemma AcceptedSnoc(rs: seq<bool>, r: bool)
    ensures Accepted(rs + [r]) == Accepted(rs) + (if r then 1 else 0)
  {
    assert (rs + [r])[..|rs|] == rs;
  }

  /** Every presentation of x was refused. */
  ghost predicate AllRefused(events: seq<Event>, rs: seq<bool>, x: string)
  {
    |rs| == |events| && forall i :: 0 <= i < |events| && events[i].jti == x ==> !rs[i]
  }

  /** One more presentation, after a run that left x protected. */
  lemma StepProtects(m1: Memory, cap: nat, x: string, deadline: int, events: seq<Event>, rs: seq<bool>)
    requires cap > 0 && events != [] && AllBefore(events, deadline)
    requires Protected(m1, x, deadline, Accepted(rs)) && AllRefused(events[..|events| - 1], rs, x)
    ensures var e := events[|events| - 1];
            var (m2, r) := Remember(m1, cap, e.jti, e.deadline, e.now);
            Accepted(rs + [r]) < cap ==>
              Protected(m2, x, deadline, Accepted(rs + [r])) && AllRefused(events, rs + [r], x)
  {
    var e := events[|events| - 1];
    var r := Remember(m1, cap, e.jti, e.deadline, e.now).1;
    AcceptedSnoc(rs, r);
    if Accepted(rs + [r]) < cap {
      RememberProtects(m1, cap, x, deadline, Accepted(rs), e.jti, e.deadline, e.now);
    }
  }

  lemma {:induction false} ExecProtects(m: Memory, cap: nat, x: string, deadline: int, events: seq<Event>)
    requires cap > 0 && Protected(m, x, deadline, 0) && AllBefore(events, deadline)
    requires Accepted(Exec(m, cap, events).1) < cap
    ensures var (m', rs) := Exec(m, cap, events);
            Protected(m', x, deadline, Accepted(rs)) && AllRefused(events, rs, x)
    decreases |events|
  {
    if events != [] {
      var n := |events| - 1;
      var (m1, rs) := Exec(m, cap, events[..n]);
      AcceptedSnoc(rs, Remember(m1, cap, events[n].jti, events[n].deadline, events[n].now).1);
      ExecProtects(m, cap, x, deadline, events[..n]);
      StepProtects(m1, cap, x, deadline, events, rs);
    }
  }

  /** x is refused at every presentation before its deadline while fewer than `cap`
      identifiers have been accepted in between, whatever is presented. */
  ghost predicate RefusedUntilDeadline(m: Memory, cap: nat, x: string, deadline: int)
    requires cap > 0
  {
    forall events: seq<Event>, d: int, now: int ::
      AllBefore(events, deadline) && now < deadline && Accepted(Exec(m, cap, events).1) < cap ==>
        !Remember(Exec(m, cap, events).0, cap, x, d, now).1
  }

  // ---------------------------------------------------------------- when protection fails

  /** Some string is not in a finite set. */
  lemma {:induction false} LengthBound(s: set<string>) returns (n: nat)
    ensures forall x :: x in s ==> |x| < n
    decreases |s|
  {
    if s == {} {
      n := 0;
    } else {
      var x :| x in s;
      var k := LengthBound(s - {x});
      n := if k <= |x| then |x| + 1 else k;
      assert forall y :: y in s ==> y == x || y in s - {x};
    }
  }

  lemma FreshName(s: set<string>) returns (x: string)
    ensures x !in s
  {
    var n := LengthBound(s);
    x := seq(n, _ => 'j');
  }

  /** A copy of x stands in the queue with at least r entries behind it; or x has been
      forgotten already. */
  ghost predicate Stale(m: Memory, x: string, r: nat)
  {
    x !in m.seen || exists q :: 0 <= q && q + r < |m.order| && m.order[q] == x
  }

  lemma DropStale(m: Memory, x: string, r: nat)
    requires m.order != [] && Stale(m, x, r)
    ensures Stale(DropHead(m), x, r)
  {
    if x in m.seen && m.order[0] != x {
      var q :| 0 <= q && q + r < |m.order| && m.order[q] == x;
      assert DropHead(m).order[q - 1] == x;
    }
  }

  lemma {:induction false} SweepStale(m: Memory, x: string, r: nat, now: int)
    requires Stale(m, x, r)
    ensures Stale(Sweep(m, now), x, r)
    decreases |m.order|
  {
    if m.order != [] && !Live(m, m.order[0], now) {
      DropStale(m, x, r);
      SweepStale(DropHead(m), x, r, now);
    }
  }

  lemma {:induction false} TrimStale(m: Memory, x: string, r: nat, cap: nat)
    requires Stale(m, x, r) && cap > 0
    ensures Stale(Trim(m, cap), x, r)
    decreases |m.order|
  {
    if |m.order| >= cap {
      DropStale(m, x, r);
      TrimStale(DropHead(m), x, r, cap);
    }
  }

  lemma AcceptOther(m: Memory, cap: nat, x: string, y: string, r: nat, d: int, now: int)
    requires cap > 0 && Stale(m, x, r) && y !in m.seen && y != x
    ensures Remember(m, cap, y, d, now).1 && Stale(Remember(m, cap, y, d, now).0, x, r + 1)
  {
    SweepStale(m, x, r, now);
    var t := Trim(Sweep(m, now), cap);
    TrimStale(Sweep(m, now), x, r, cap);
    if x in t.seen {
      var q :| 0 <= q && q + r < |t.order| && t.order[q] == x;
      assert Append(t, y, d).order[q] == x;
    }
  }

  /** k other identifiers, accepted one after the other, stand behind the copy. */
  lemma {:induction false} Flood(m: Memory, cap: nat, x: string, r: nat, now: int, k: nat) returns (events: seq<Event>)
    requires cap > 0 && Stale(m, x, r)
    ensures |events| == k && forall i :: 0 <= i < k ==> events[i].now == now
    ensures Accepted(Exec(m, cap, events).1) == k
    ensures Stale(Exec(m, cap, events).0, x, r + k)
  {
    if k == 0 {
      events := [];
    } else {
      var before := Flood(m, cap, x, r, now, k - 1);
      var (m1, rs) := Exec(m, cap, before);
      var y := FreshName(m1.seen.Keys + {x});
      AcceptOther(m1, cap, x, y, r + k - 1, now, now);
      events := before + [Event(y, now, now)];
      assert events[..k - 1] == before;
      assert (rs + [true])[..|rs|] == rs;
    }
  }

  /** What the queue holds when a new identifier is appended. */
  function Room(m: Memory, cap: nat, now: int): Memory
    requires cap > 0
  {
    Trim(Sweep(m, now), cap)
  }

  lemma NotQueuedProtects(m: Memory, cap: nat, x: string, deadline: int, now: int)
    requires cap > 0 && !Live(m, x, now) && x !in Room(m, cap, now).order
    ensures RefusedUntilDeadline(Remember(m, cap, x, deadline, now).0, cap, x, deadline)
  {
    var m' := Remember(m, cap, x, deadline, now).0;
    assert Protected(m', x, deadline, 0);
    forall events: seq<Event>, d: int, t: int
      | AllBefore(events, deadline) && t < deadline && Accepted(Exec(m', cap, events).1) < cap
      ensures !Remember(Exec(m', cap, events).0, cap, x, d, t).1
    {
      ExecProtects(m', cap, x, deadline, events);
      RememberProtects(Exec(m', cap, events).0, cap, x, deadline, Accepted(Exec(m', cap, events).1), x, d, t);
    }
  }

  lemma QueuedIsForgotten(m: Memory, cap: nat, x: string, deadline: int, now: int)
    requires cap > 0 && WellFormed(m, cap) && !Live(m, x, now) && now < deadline && x in Room(m, cap, now).order
    ensures !RefusedUntilDeadline(Remember(m, cap, x, deadline, now).0, cap, x, deadline)
  {
    var base, m' := Room(m, cap, now), Remember(m, cap, x, deadline, now).0;
    var q :| 0 <= q < |base.order| && base.order[q] == x;
    assert m'.order[q] == x && q + 1 < |m'.order|;
    var events := Flood(m', cap, x, 1, now, cap - 1);
    RememberWellFormed(m, cap, x, deadline, now);
    ExecWellFormed(m', cap, events);
    assert !Live(Exec(m', cap, events).0, x, now);
    assert Remember(Exec(m', cap, events).0, cap, x, deadline, now).1;
  }

  /** An accepted identifier is refused until its deadline, while fewer than `cap` further
      ones are accepted, if and only if no older copy of it was still queued. */
  lemma RefusedIffNotQueued(m: Memory, cap: nat, x: string, deadline: int, now: int)
    requires cap > 0 && WellFormed(m, cap) && !Live(m, x, now) && now < deadline
    ensures RefusedUntilDeadline(Remember(m, cap, x, deadline, now).0, cap, x, deadline)
            <==> x !in Room(m, cap, now).order
  {
    if x in Room(m, cap, now).order {
      QueuedIsForgotten(m, cap, x, deadline, now);
    } else {
      NotQueuedProtects(m, cap, x, deadline, now);
    }
  }

  lemma AcceptsAs(m: Memory, base: Memory, m': Memory, jti: string, deadline: int, now: int)
    requires !Live(m, jti, now) && Room(m, 3, now) == base
    requires m'.seen == base.seen[jti := deadline] && m'.order == base.order + [jti]
    ensures Remember(m, 3, jti, deadline, now) == (m', true)
  {
  }

  /** The case that fails, with capacity 3: "a" has expired behind the live "b" and is
      accepted again; two further acceptances push out its old copy, and with it its
      deadline, so it is accepted once more before that deadline. */
  lemma OldCopyForgets()
    ensures var m2 := Memory(map["b" := 100, "a" := 10], ["b", "a"]);
            var m3 := Memory(map["b" := 100, "a" := 120], ["b", "a", "a"]);
            var m4 := Memory(map["a" := 120, "c" := 100], ["a", "a", "c"]);
            var m5 := Memory(map["c" := 100, "d" := 100], ["a", "c", "d"]);
            && WellFormed(m2, 3)
            && Remember(m2, 3, "a", 120, 20) == (m3, true)
            && Remember(m3, 3, "c", 100, 21) == (m4, true)
            && Remember(m4, 3, "d", 100, 22) == (m5, true)
            && Remember(m5, 3, "a", 120, 23).1
  {
    var m2 := Memory(map["b" := 100, "a" := 10], ["b", "a"]);
    var m3 := Memory(map["b" := 100, "a" := 120], ["b", "a", "a"]);
    var m4 := Memory(map["a" := 120, "c" := 100], ["a", "a", "c"]);
    var m5 := Memory(map["c" := 100, "d" := 100], ["a", "c", "d"]);
    AcceptsAs(m2, m2, m3, "a", 120, 20);
    assert DropHead(m3) == Memory(map["a" := 120], ["a", "a"]);
    AcceptsAs(m3, DropHead(m3), m4, "c", 100, 21);
    assert DropHead(m4) == Memory(map["c" := 100], ["a", "c"]);
    AcceptsAs(m4, DropHead(m4), m5, "d", 100, 22);
  }
}
