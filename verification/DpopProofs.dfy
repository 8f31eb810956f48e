/**
 How often a DPoP proof is accepted: the age check and the replay memory together, over runs
 of presentations on one clock. The memory keeps an identifier until `iat` plus the maximum
 age, while the age check lets a proof pass for the clock skew longer.
 */
module DpopProofs {
  import opened DpopReplay

  /** One presentation of a proof. */
  datatype Showing = Showing(jti: string, iat: int, now: int)

  function Show(rules: Rules, m: Memory, e: Showing): (Memory, Freshness)
    requires rules.cap > 0
  {
    Present(rules, m, e.jti, e.iat, e.now, e.now)
  }

  function Shown(rules: Rules, m: Memory, run: seq<Showing>): (Memory, seq<Freshness>)
    requires rules.cap > 0
  {
    if run == [] then (m, [])
    else
      var n := |run| - 1;
      var (m1, rs) := Shown(rules, m, run[..n]);
      var (m2, r) := Show(rules, m1, run[n]);
      (m2, rs + [r])
  }

  /** Presentations of other identifiers that were accepted. */
  function Others(rules: Rules, m: Memory, run: seq<Showing>, x: string): nat
    requires rules.cap > 0
  {
    if run == [] then 0
    else
      var n := |run| - 1;
      var e := run[n];
      Others(rules, m, run[..n], x)
      + (if e.jti != x && Show(rules, Shown(rules, m, run[..n]).0, e).1 == Fresh then 1 else 0)
  }

  function Deadline(rules: Rules, iat: int): int { iat * SECOND + rules.maxAge }

  /** The identifier x is used by one proof only. */
  ghost predicate OneProof(run: seq<Showing>, x: string, iat: int)
  {
    forall i :: 0 <= i < |run| && run[i].jti == x ==> run[i].iat == iat
  }

  ghost predicate Until(run: seq<Showing>, t: int)
  {
    forall i :: 0 <= i < |run| ==> run[i].now <= t
  }

  // ---------------------------------------------------------------- before the deadline

  lemma ShowProtects(rules: Rules, m: Memory, x: string, deadline: int, k: nat, e: Showing)
    requires rules.cap > 0 && Protected(m, x, deadline, k) && e.now < deadline
    ensures var (m', r) := Show(rules, m, e);
            && (e.jti == x ==> r != Fresh)
            && (e.jti == x || r != Fresh ==> Protected(m', x, deadline, k))
            && (r == Fresh && k + 1 < rules.cap ==> Protected(m', x, deadline, k + 1))
  {
    RememberProtects(m, rules.cap, x, deadline, k, e.jti, Deadline(rules, e.iat), e.now);
  }

  /** While fewer than `cap` others are accepted, x stays protected until its deadline. */
  lemma {:induction false} ShownProtects(rules: Rules, m: Memory, x: string, deadline: int, run: seq<Showing>)
    requires rules.cap > 0 && Protected(m, x, deadline, 0) && Others(rules, m, run, x) < rules.cap
    requires forall i :: 0 <= i < |run| ==> run[i].now < deadline
    ensures Protected(Shown(rules, m, run).0, x, deadline, Others(rules, m, run, x))
  {
    if run != [] {
      var n := |run| - 1;
      ShownProtects(rules, m, x, deadline, run[..n]);
      ShowProtects(rules, Shown(rules, m, run[..n]).0, x, deadline, Others(rules, m, run[..n], x), run[n]);
    }
  }

  // ---------------------------------------------------------------- from the deadline on

  /** If x is remembered, its deadline is the given one. */
  ghost predicate Dated(m: Memory, x: string, deadline: int)
  {
    x in m.seen ==> m.seen[x] == deadline
  }

  lemma {:induction false} SweepDated(m: Memory, x: string, deadline: int, now: int)
    requires Dated(m, x, deadline)
    ensures Dated(Sweep(m, now), x, deadline)
    decreases |m.order|
  {
    if m.order != [] && !Live(m, m.order[0], now) {
      SweepDated(DropHead(m), x, deadline, now);
    }
  }

  lemma {:induction false} TrimDated(m: Memory, x: string, deadline: int, cap: nat)
    requires Dated(m, x, deadline) && cap > 0
    ensures Dated(Trim(m, cap), x, deadline)
    decreases |m.order|
  {
    if |m.order| >= cap {
      TrimDated(DropHead(m), x, deadline, cap);
    }
  }

  lemma ShowDated(rules: Rules, m: Memory, x: string, iat: int, e: Showing)
    requires rules.cap > 0 && Dated(m, x, Deadline(rules, iat)) && (e.jti == x ==> e.iat == iat)
    ensures Dated(Show(rules, m, e).0, x, Deadline(rules, iat))
  {
    SweepDated(m, x, Deadline(rules, iat), e.now);
    TrimDated(Sweep(m, e.now), x, Deadline(rules, iat), rules.cap);
  }

  lemma {:induction false} ShownDated(rules: Rules, m: Memory, x: string, iat: int, run: seq<Showing>)
    requires rules.cap > 0 && Dated(m, x, Deadline(rules, iat)) && OneProof(run, x, iat)
    ensures Dated(Shown(rules, m, run).0, x, Deadline(rules, iat))
  {
    if run != [] {
      var n := |run| - 1;
      ShownDated(rules, m, x, iat, run[..n]);
      ShowDated(rules, Shown(rules, m, run[..n]).0, x, iat, run[n]);
    }
  }

  // ---------------------------------------------------------------- the first time

  /** A proof whose identifier is not remembered is accepted if and only if it has an identifier
      and was issued at most the maximum age and the skew before or after now. */
  lemma NewProofIff(rules: Rules, m: Memory, e: Showing)
    requires rules.cap > 0 && e.jti !in m.seen
    ensures var (m', r) := Show(rules, m, e);
            && (r == Fresh <==>
                  && e.jti != "" && e.iat != 0
                  && e.iat * SECOND - rules.maxAge - rules.skew <= e.now
                  && e.now <= e.iat * SECOND + rules.maxAge + rules.skew)
            && (r == Fresh ==> e.jti in m'.seen && m'.seen[e.jti] == Deadline(rules, e.iat))
            && (r != Fresh ==> m' == m)
  {
  }

  // ---------------------------------------------------------------- when a proof is accepted again

  /** A proof is accepted by a memory that holds no older copy of its identifier. */
  ghost predicate FirstAccepted(rules: Rules, m: Memory, e: Showing)
    requires rules.cap > 0
  {
    Show(rules, m, e).1 == Fresh && e.jti !in Room(m, rules.cap, e.now).order
  }

  /** After its acceptance, and while fewer than `cap` others are accepted, a proof is accepted
      again exactly in the clock-skew tail of its age window. */
  lemma FreshAgainIff(rules: Rules, m: Memory, e: Showing, run: seq<Showing>, t: int)
    requires rules.cap > 0 && rules.maxAge > 0 && FirstAccepted(rules, m, e)
    requires OneProof(run, e.jti, e.iat) && Until(run, t)
    requires Others(rules, Show(rules, m, e).0, run, e.jti) < rules.cap
    ensures Show(rules, Shown(rules, Show(rules, m, e).0, run).0, e.(now := t)).1 == Fresh
            <==> Deadline(rules, e.iat) <= t <= Deadline(rules, e.iat) + rules.skew
  {
    var m', x, d := Show(rules, m, e).0, e.jti, Deadline(rules, e.iat);
    if t < d {
      assert Protected(m', x, d, 0);
      ShownProtects(rules, m', x, d, run);
      ShowProtects(rules, Shown(rules, m', run).0, x, d, Others(rules, m', run, x), e.(now := t));
    } else {
      ShownDated(rules, m', x, e.iat, run);
    }
  }

  // ---------------------------------------------------------------- single use

  ghost predicate InTime(run: seq<Showing>)
  {
    forall i, j :: 0 <= i < j < |run| ==> run[i].now <= run[j].now
  }

  /** The memory before the numbered presentation of a run. */
  function At(rules: Rules, run: seq<Showing>, i: nat): Memory
    requires rules.cap > 0 && i <= |run|
  {
    Shown(rules, EMPTY, run[..i]).0
  }

  ghost predicate Accepts(rules: Rules, run: seq<Showing>, i: nat)
    requires rules.cap > 0 && i < |run|
  {
    Show(rules, At(rules, run, i), run[i]).1 == Fresh
  }

  /** In a run the proof shown at i comes again at j, its identifier is used by no other proof,
      and fewer than `cap` others are accepted in between. */
  ghost predicate ComesAgain(rules: Rules, run: seq<Showing>, i: nat, j: nat)
    requires rules.cap > 0
  {
    && i < j < |run| && InTime(run)
    && run[j].jti == run[i].jti && OneProof(run, run[i].jti, run[i].iat)
    && Others(rules, At(rules, run, i + 1), run[i + 1..j], run[i].jti) < rules.cap
  }

  /** No run accepts a proof twice, as long as fewer than `cap` others are accepted in between
      and no other proof uses its identifier. */
  ghost predicate SingleUse(rules: Rules)
    requires rules.cap > 0
  {
    forall run: seq<Showing>, i: nat, j: nat :: ComesAgain(rules, run, i, j) ==>
      !(Accepts(rules, run, i) && Accepts(rules, run, j))
  }

  lemma {:induction false} ShownConcat(rules: Rules, m: Memory, a: seq<Showing>, b: seq<Showing>)
    requires rules.cap > 0
    ensures Shown(rules, m, a + b).0 == Shown(rules, Shown(rules, m, a).0, b).0
    decreases |b|
  {
    if b == [] {
      assert a + b == a;
    } else {
      var n := |b| - 1;
      assert (a + b)[..|a| + n] == a + b[..n] && (a + b)[|a| + n] == b[n];
      ShownConcat(rules, m, a, b[..n]);
    }
  }

  /** x is queued only while it is remembered, and once. */
  ghost predicate Single(m: Memory, x: string)
  {
    && (x in m.order ==> x in m.seen)
    && forall i, j :: 0 <= i < j < |m.order| && m.order[i] == x ==> m.order[j] != x
  }

  lemma DropSingle(m: Memory, x: string)
    requires m.order != [] && Single(m, x)
    ensures Single(DropHead(m), x)
  {
    var d := DropHead(m);
    assert forall i :: 0 <= i < |d.order| ==> d.order[i] == m.order[i + 1];
    if x in d.order {
      assert x in m.order && m.order[0] != x;
    }
  }

  lemma {:induction false} SweepSingle(m: Memory, x: string, now: int)
    requires Single(m, x)
    ensures Single(Sweep(m, now), x)
    ensures x in Sweep(m, now).seen ==> x in m.seen
    decreases |m.order|
  {
    if m.order != [] && !Live(m, m.order[0], now) {
      DropSingle(m, x);
      SweepSingle(DropHead(m), x, now);
    }
  }

  lemma {:induction false} TrimSingle(m: Memory, x: string, cap: nat)
    requires Single(m, x) && cap > 0
    ensures Single(Trim(m, cap), x)
    ensures x in Trim(m, cap).seen ==> x in m.seen
    decreases |m.order|
  {
    if |m.order| >= cap {
      DropSingle(m, x);
      TrimSingle(DropHead(m), x, cap);
    }
  }

  /** With a negative skew a proof passes the age check only before its deadline, so it is
      accepted only when it is not queued. */
  lemma ShowSingle(rules: Rules, m: Memory, x: string, iat: int, e: Showing)
    requires rules.cap > 0 && rules.skew < 0 && Single(m, x) && Dated(m, x, Deadline(rules, iat))
    requires e.jti == x ==> e.iat == iat
    ensures Single(Show(rules, m, e).0, x)
    ensures e.jti == x && Show(rules, m, e).1 == Fresh ==> x !in Room(m, rules.cap, e.now).order
  {
    SweepSingle(m, x, e.now);
    var room := Room(m, rules.cap, e.now);
    TrimSingle(Sweep(m, e.now), x, rules.cap);
    if Show(rules, m, e).1 == Fresh {
      var m' := Show(rules, m, e).0;
      assert m'.order == room.order + [e.jti];
      assert forall i :: 0 <= i < |room.order| ==> m'.order[i] == room.order[i];
      if e.jti == x {
        assert !Live(m, x, e.now) && x !in m.seen;
        assert x !in room.order;
      }
    }
  }

  lemma {:induction false} AtSingle(rules: Rules, run: seq<Showing>, x: string, iat: int, i: nat)
    requires rules.cap > 0 && rules.skew < 0 && OneProof(run, x, iat) && i <= |run|
    ensures Single(At(rules, run, i), x) && Dated(At(rules, run, i), x, Deadline(rules, iat))
  {
    if i > 0 {
      AtSingle(rules, run, x, iat, i - 1);
      assert run[..i][..i - 1] == run[..i - 1];
      ShowSingle(rules, At(rules, run, i - 1), x, iat, run[i - 1]);
      ShowDated(rules, At(rules, run, i - 1), x, iat, run[i - 1]);
    }
  }

  lemma AtSplits(rules: Rules, run: seq<Showing>, i: nat, j: nat)
    requires rules.cap > 0 && i < j <= |run|
    ensures At(rules, run, i + 1) == Show(rules, At(rules, run, i), run[i]).0
    ensures At(rules, run, j) == Shown(rules, At(rules, run, i + 1), run[i + 1..j]).0
  {
    assert run[..i + 1][..i] == run[..i];
    assert run[..j] == run[..i + 1] + run[i + 1..j];
    ShownConcat(rules, EMPTY, run[..i + 1], run[i + 1..j]);
  }

  lemma UsedOnce(rules: Rules, run: seq<Showing>, i: nat, j: nat)
    requires rules.cap > 0 && rules.maxAge > 0 && rules.skew < 0 && ComesAgain(rules, run, i, j)
    ensures !(Accepts(rules, run, i) && Accepts(rules, run, j))
  {
    var x, iat := run[i].jti, run[i].iat;
    if Accepts(rules, run, i) {
      AtSingle(rules, run, x, iat, i);
      ShowSingle(rules, At(rules, run, i), x, iat, run[i]);
      AtSplits(rules, run, i, j);
      FreshAgainIff(rules, At(rules, run, i), run[i], run[i + 1..j], run[j].now);
      assert run[j] == run[i].(now := run[j].now);
    }
  }

  /** Without a negative skew any proof is accepted at its `iat` and again at its deadline. */
  lemma UsedTwice(rules: Rules, jti: string, iat: int)
    requires rules.cap > 0 && rules.maxAge > 0 && rules.skew >= 0 && jti != "" && iat != 0
    ensures var run := [Showing(jti, iat, iat * SECOND), Showing(jti, iat, Deadline(rules, iat))];
            ComesAgain(rules, run, 0, 1) && Accepts(rules, run, 0) && Accepts(rules, run, 1)
  {
    var first, second := Showing(jti, iat, iat * SECOND), Showing(jti, iat, Deadline(rules, iat));
    var run := [first, second];
    assert run[..0] == [] && run[1..1] == [];
    AtSplits(rules, run, 0, 1);
    FreshAgainIff(rules, EMPTY, first, [], second.now);
  }

  /** Over all runs every proof whose identifier no other proof uses is accepted at most once
      while fewer than `cap` others are accepted, if and only if the clock skew is negative. */
  lemma SingleUseIff(rules: Rules)
    requires rules.cap > 0 && rules.maxAge > 0
    ensures SingleUse(rules) <==> rules.skew < 0
  {
    if rules.skew < 0 {
      forall run: seq<Showing>, i: nat, j: nat | ComesAgain(rules, run, i, j)
        ensures !(Accepts(rules, run, i) && Accepts(rules, run, j))
      {
        UsedOnce(rules, run, i, j);
      }
    } else {
      UsedTwice(rules, "x", 1);
    }
  }

  /** With the default maximum age and skew of 60 seconds each, a proof accepted when it was
      made is accepted again 90 seconds later. */
  lemma DefaultSkewTail(jti: string, iat: int)
    requires jti != "" && iat != 0
    ensures var rules := Rules(60 * SECOND, 60 * SECOND, 4096);
            var e := Showing(jti, iat, iat * SECOND);
            && Show(rules, EMPTY, e).1 == Fresh
            && Show(rules, Show(rules, EMPTY, e).0, e.(now := (iat + 90) * SECOND)).1 == Fresh
  {
    var rules := Rules(60 * SECOND, 60 * SECOND, 4096);
    FreshAgainIff(rules, EMPTY, Showing(jti, iat, iat * SECOND), [], (iat + 90) * SECOND);
  }

  // ---------------------------------------------------------------- settings

  /** The skew of a validator: 60 seconds, unless options ask for a positive one. */
  function SkewOf(options: seq<int>): (skew: int)
    ensures skew > 0
  {
    if options == [] then 60 * SECOND
    else
      var n := |options| - 1;
      if options[n] > 0 then options[n] else SkewOf(options[..n])
  }

  function RulesOf(options: seq<int>, maxAge: int, cap: int): (rules: Rules)
    ensures rules.cap > 0 && rules.maxAge > 0
  {
    Rules(if maxAge <= 0 then 60 * SECOND else maxAge, SkewOf(options), if cap <= 0 then 4096 else cap)
  }

  /** So single use holds in no configuration that the library can be given. */
  lemma NeverSingleUse(options: seq<int>, maxAge: int, cap: int)
    ensures !SingleUse(RulesOf(options, maxAge, cap))
  {
    SingleUseIff(RulesOf(options, maxAge, cap));
  }

  /** The bound on other acceptances is needed, whatever the skew: with a capacity of one, the
      acceptance of another proof makes the first one acceptable again. */
  lemma CapacityForgets(maxAge: int, skew: int, x: string, y: string, iat: int)
    requires maxAge > 0 && maxAge + skew >= 0 && x != y && x != "" && y != "" && iat != 0
    ensures var rules, now := Rules(maxAge, skew, 1), iat * SECOND;
            var m1 := Show(rules, EMPTY, Showing(x, iat, now));
            var m2 := Show(rules, m1.0, Showing(y, iat, now));
            m1.1 == Fresh && m2.1 == Fresh && Show(rules, m2.0, Showing(x, iat, now)).1 == Fresh
  {
    var rules, now := Rules(maxAge, skew, 1), iat * SECOND;
    var d := Deadline(rules, iat);
    var m1 := Show(rules, EMPTY, Showing(x, iat, now)).0;
    assert m1 == Memory(map[x := d], [x]);
    assert DropHead(m1) == Memory(map[], []);
    assert Show(rules, m1, Showing(y, iat, now)).0 == Memory(map[y := d], [y]);
  }
}
