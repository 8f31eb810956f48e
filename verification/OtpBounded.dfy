/**
 One-time codes on the bounded cache, shared with everything else: other destinations and
 other users of the cache may do anything to other keys at any time, and a full cache evicts
 the entry closest to expiry. The calls for one destination follow one another; between any
 two of their operations anything else may happen.
 */
module OtpBounded {
  import Orders
  import opened TtlMap
  import opened OtpSteps
  import opened OtpProgram

  /** What can be observed, where the calls on the destination stand, when the latest code was
      stored, and how many guesses have been compared with it. */
  datatype World = World(v: Store, now: int, phase: Phase, issued: int, guesses: nat)

  const START := World(map[], 0, Idle, 0, 0)

  /** The answer of the cache to an operation. */
  function Answer(v: Store, op: Op, now: int): Access
  {
    Access(op, op.key in v, if op.key in v then v[op.key].value else "",
           if op.Incr? then Counted(v, op.key, now, op.ttl).n else 0)
  }

  ghost predicate Step(cfg: Config, max: nat, id: string, w: World, e: Timed, w': World)
  {
    var v := View(w.v, e.now);
    && w.now <= e.now == w'.now
    && Effect(max, v, e.op, e.now, w'.v)
    && if !OwnKey(id, e.op.key) then w' == w.(v := w'.v, now := e.now)
       else
         && Follows(cfg, id, w.phase, Answer(v, e.op, e.now), w'.phase)
         && w'.issued == (if w.phase == Claimed && e.op.Set? then e.now else w.issued)
         && w'.guesses == (if w.phase == Claimed && e.op.Set? then 0
                           else if w.phase == Comparing && CodeKey(id) in v then w.guesses + 1
                           else w.guesses)
  }

  /** A sequence of operations, with the world before and after each. */
  ghost predicate Path(cfg: Config, max: nat, id: string, events: seq<Timed>, worlds: seq<World>)
  {
    && |worlds| == |events| + 1
    && forall i :: 0 <= i < |events| ==> Step(cfg, max, id, worlds[i], events[i], worlds[i + 1])
  }

  ghost predicate IsRun(cfg: Config, max: nat, id: string, events: seq<Timed>, worlds: seq<World>)
  {
    Path(cfg, max, id, events, worlds) && worlds[0] == START
  }

  // ---------------------------------------------------------------- the attempt counter outlives the code

  /** A guessed code has its attempt counter beside it, which counts every guess and expires
      after the code. */
  ghost predicate Accounted(cfg: Config, id: string, v: Store, phase: Phase, issued: int, guesses: nat, now: int)
  {
    CodeKey(id) in v ==>
      && issued <= now && v[CodeKey(id)].expires == At(issued + cfg.ttl)
      && phase != Forgetting && (phase == Resetting ==> guesses == 0)
      && (phase != Resetting ==>
            if AttKey(id) in v
            then && v[AttKey(id)].expires.At? && issued + cfg.ttl < v[AttKey(id)].expires.t
                 && guesses + (if phase == Comparing then 1 else 0) <= v[AttKey(id)].n
                 && (phase == Comparing ==> v[AttKey(id)].n <= cfg.maxAttempts)
            else guesses == 0 && phase != Comparing)
  }

  ghost predicate Inv(cfg: Config, id: string, w: World)
  {
    w.guesses <= cfg.maxAttempts && Accounted(cfg, id, w.v, w.phase, w.issued, w.guesses, w.now)
  }

  /** Time passes: the counter is never the first to expire. */
  lemma AccountedLater(cfg: Config, id: string, v: Store, phase: Phase, issued: int, guesses: nat, now: int, later: int)
    requires Accounted(cfg, id, v, phase, issued, guesses, now) && now <= later
    ensures Accounted(cfg, id, View(v, later), phase, issued, guesses, later)
  {
  }

  /** An operation on another key keeps the account: an eviction takes the code first. */
  lemma AccountedFrames(cfg: Config, max: nat, id: string, v: Store, op: Op, now: int, v': Store,
                        phase: Phase, issued: int, guesses: nat)
    requires Accounted(cfg, id, v, phase, issued, guesses, now) && Effect(max, v, op, now, v')
    requires op.key != CodeKey(id) && op.key != AttKey(id)
    ensures Accounted(cfg, id, v', phase, issued, guesses, now)
  {
    EffectFrames(max, v, op, now, v', CodeKey(id));
    EffectFrames(max, v, op, now, v', AttKey(id));
  }

  lemma StoreKeeps(cfg: Config, max: nat, id: string, v: Store, mac: string, now: int, v': Store)
    requires Configured(cfg) && Effect(max, v, Op.Set(CodeKey(id), mac, cfg.ttl), now, v')
    ensures Accounted(cfg, id, v', Resetting, now, 0, now)
  {
    KeysApart(id, id);
    PutFrames(max, v, v', CodeKey(id), Stored(now, mac, cfg.ttl), AttKey(id));
  }

  lemma CountKeeps(cfg: Config, max: nat, id: string, v: Store, now: int, v': Store, issued: int, guesses: nat)
    requires Configured(cfg) && cfg.ttl < cfg.lockout
    requires Accounted(cfg, id, v, Counting, issued, guesses, now)
    requires Effect(max, v, Op.Incr(AttKey(id), cfg.lockout), now, v')
    ensures Accounted(cfg, id, v', Locking, issued, guesses, now)
    ensures Counted(v, AttKey(id), now, cfg.lockout).n <= cfg.maxAttempts ==>
              Accounted(cfg, id, v', Comparing, issued, guesses, now)
  {
    KeysApart(id, id);
    PutFrames(max, v, v', AttKey(id), Counted(v, AttKey(id), now, cfg.lockout), CodeKey(id));
  }

  /** Operations that leave code and counter alone. */
  lemma AsideKeeps(cfg: Config, max: nat, id: string, w: World, e: Timed, w': World)
    requires OwnKey(id, e.op.key) && Step(cfg, max, id, w, e, w')
    requires w.guesses <= cfg.maxAttempts
    requires Accounted(cfg, id, View(w.v, e.now), w.phase, w.issued, w.guesses, e.now)
    requires w.phase in {Idle, Claiming, Unclaiming, Locking} || (w.phase == Claimed && e.op.Delete?)
    ensures Inv(cfg, id, w')
  {
    KeysApart(id, id);
    AccountedFrames(cfg, max, id, View(w.v, e.now), e.op, e.now, w'.v, w.phase, w.issued, w.guesses);
  }

  /** Operations that delete the code or the counter, and the comparison. */
  lemma EndKeeps(cfg: Config, max: nat, id: string, w: World, e: Timed, w': World)
    requires OwnKey(id, e.op.key) && Step(cfg, max, id, w, e, w')
    requires w.guesses <= cfg.maxAttempts
    requires Accounted(cfg, id, View(w.v, e.now), w.phase, w.issued, w.guesses, e.now)
    requires w.phase in {Resetting, Unsending, Discarding, Comparing, Consuming, Forgetting}
    ensures Inv(cfg, id, w')
  {
    KeysApart(id, id);
  }

  lemma OwnKeeps(cfg: Config, max: nat, id: string, w: World, e: Timed, w': World)
    requires Configured(cfg) && cfg.ttl < cfg.lockout && OwnKey(id, e.op.key)
    requires Step(cfg, max, id, w, e, w')
    requires w.guesses <= cfg.maxAttempts
    requires Accounted(cfg, id, View(w.v, e.now), w.phase, w.issued, w.guesses, e.now)
    ensures Inv(cfg, id, w')
  {
    if w.phase == Claimed && e.op.Set? {
      StoreKeeps(cfg, max, id, View(w.v, e.now), e.op.value, e.now, w'.v);
    } else if w.phase == Counting {
      CountKeeps(cfg, max, id, View(w.v, e.now), e.now, w'.v, w.issued, w.guesses);
    } else if w.phase in {Idle, Claiming, Unclaiming, Locking, Claimed} {
      AsideKeeps(cfg, max, id, w, e, w');
    } else {
      EndKeeps(cfg, max, id, w, e, w');
    }
  }

  lemma StepKeeps(cfg: Config, max: nat, id: string, w: World, e: Timed, w': World)
    requires Configured(cfg) && cfg.ttl < cfg.lockout && Inv(cfg, id, w) && Step(cfg, max, id, w, e, w')
    ensures Inv(cfg, id, w')
  {
    AccountedLater(cfg, id, w.v, w.phase, w.issued, w.guesses, w.now, e.now);
    if OwnKey(id, e.op.key) {
      OwnKeeps(cfg, max, id, w, e, w');
    } else {
      AccountedFrames(cfg, max, id, View(w.v, e.now), e.op, e.now, w'.v, w.phase, w.issued, w.guesses);
    }
  }

  lemma {:induction false} RunKeeps(cfg: Config, max: nat, id: string, events: seq<Timed>, worlds: seq<World>, i: nat)
    requires Configured(cfg) && cfg.ttl < cfg.lockout && IsRun(cfg, max, id, events, worlds) && i < |worlds|
    ensures Inv(cfg, id, worlds[i])
  {
    if i > 0 {
      RunKeeps(cfg, max, id, events, worlds, i - 1);
      StepKeeps(cfg, max, id, worlds[i - 1], events[i - 1], worlds[i]);
    }
  }

  // ---------------------------------------------------------------- a cache of one entry

  lemma OnlyOne(v: Store, a: string, b: string)
    requires |v| <= 1 && a in v && b in v
    ensures a == b
  {
    Orders.SubsetSize({a, b}, v.Keys);
    assert |v.Keys| == |v|;
  }

  /** The attempt counter has pushed the code out before it can be compared. */
  ghost predicate Lone(id: string, w: World)
  {
    |w.v| <= 1 && w.guesses == 0 && (w.phase == Comparing ==> CodeKey(id) !in w.v)
  }

  lemma CountedOut(cfg: Config, id: string, v: Store, now: int, v': Store)
    requires |v| <= 1 && Effect(1, v, Op.Incr(AttKey(id), cfg.lockout), now, v')
    ensures CodeKey(id) !in v'
  {
    KeysApart(id, id);
    EffectSize(1, v, Op.Incr(AttKey(id), cfg.lockout), now, v');
    PutFrames(1, v, v', AttKey(id), Counted(v, AttKey(id), now, cfg.lockout), CodeKey(id));
    if CodeKey(id) in v' {
      OnlyOne(v', AttKey(id), CodeKey(id));
    }
  }

  lemma StaysOut(id: string, v: Store, op: Op, now: int, v': Store)
    requires Effect(1, v, op, now, v') && CodeKey(id) !in v && (op.key == CodeKey(id) ==> op.Get?)
    ensures CodeKey(id) !in v'
  {
    if op.key != CodeKey(id) {
      EffectFrames(1, v, op, now, v', CodeKey(id));
    }
  }

  lemma LeadsToComparing(cfg: Config, id: string, p: Phase, a: Access, p': Phase)
    requires Follows(cfg, id, p, a, p')
    ensures p' == Comparing ==> p == Counting && a.op == Op.Incr(AttKey(id), cfg.lockout)
    ensures p == Comparing ==> a.op == Op.Get(CodeKey(id))
  {
  }

  lemma LoneOwn(cfg: Config, id: string, w: World, e: Timed, w': World)
    requires Lone(id, w) && Step(cfg, 1, id, w, e, w') && OwnKey(id, e.op.key) && |View(w.v, e.now)| <= 1
    ensures w'.guesses == 0 && (w'.phase == Comparing ==> CodeKey(id) !in w'.v)
  {
    var v := View(w.v, e.now);
    LeadsToComparing(cfg, id, w.phase, Answer(v, e.op, e.now), w'.phase);
    if w'.phase == Comparing {
      CountedOut(cfg, id, v, e.now, w'.v);
    }
  }

  lemma LoneKeeps(cfg: Config, id: string, w: World, e: Timed, w': World)
    requires Lone(id, w) && Step(cfg, 1, id, w, e, w')
    ensures Lone(id, w')
  {
    var v := View(w.v, e.now);
    ViewSize(w.v, e.now);
    EffectSize(1, v, e.op, e.now, w'.v);
    if OwnKey(id, e.op.key) {
      LoneOwn(cfg, id, w, e, w');
    } else if w.phase == Comparing {
      StaysOut(id, v, e.op, e.now, w'.v);
    }
  }

  lemma {:induction false} LoneRun(cfg: Config, id: string, events: seq<Timed>, worlds: seq<World>, i: nat)
    requires IsRun(cfg, 1, id, events, worlds) && i < |worlds|
    ensures Lone(id, worlds[i])
  {
    if i > 0 {
      LoneRun(cfg, id, events, worlds, i - 1);
      assert Step(cfg, 1, id, worlds[i - 1], events[i - 1], worlds[i]);
      LoneKeeps(cfg, id, worlds[i - 1], events[i - 1], worlds[i]);
    }
  }

  // ---------------------------------------------------------------- a counter that expires no later

  /** A run that grew by one operation at time 0. */
  lemma Extend(cfg: Config, max: nat, id: string, events: seq<Timed>, worlds: seq<World>, op: Op, w: World)
    returns (events': seq<Timed>, worlds': seq<World>)
    requires IsRun(cfg, max, id, events, worlds) && Step(cfg, max, id, worlds[|events|], Timed(op, 0), w)
    ensures IsRun(cfg, max, id, events', worlds') && worlds'[|events'|] == w
  {
    events', worlds' := events + [Timed(op, 0)], worlds + [w];
  }

  ghost predicate AllLive(v: Store)
  {
    forall k :: k in v ==> Live(v[k], 0)
  }

  lemma ViewAll(v: Store)
    requires AllLive(v)
    ensures View(v, 0) == v
  {
  }

  lemma ForeignKey(id: string, key: string)
    requires key == "" || key[0] != 'o'
    ensures !OwnKey(id, key)
  {
    assert LockKey(id)[0] == 'o' && CooldownKey(id)[0] == 'o' && CodeKey(id)[0] == 'o' && AttKey(id)[0] == 'o';
  }

  /** Room for one more entry, the code among them, and none that expires before a counter
      started now. */
  ghost predicate Base(cfg: Config, id: string, max: nat, v: Store)
  {
    && |v| + 1 == max && CodeKey(id) in v && v[CodeKey(id)].expires == At(cfg.ttl)
    && AttKey(id) !in v && LockKey(id) !in v && "g" !in v
    && AllLive(v) && forall k :: k in v ==> Rank(v[k]) >= cfg.lockout
  }

  /** One more guess: the attempt is counted and compared. */
  lemma Guess(cfg: Config, id: string, max: nat, events: seq<Timed>, worlds: seq<World>, v: Store, k: nat)
    returns (events': seq<Timed>, worlds': seq<World>)
    requires Configured(cfg) && IsRun(cfg, max, id, events, worlds) && Base(cfg, id, max, v)
    requires worlds[|events|] == World(v, 0, Idle, 0, k)
    ensures IsRun(cfg, max, id, events', worlds')
    ensures worlds'[|events'|] == World(v[AttKey(id) := Entry("", 1, At(cfg.lockout))], 0, Idle, 0, k + 1)
  {
    KeysApart(id, id);
    ViewAll(v);
    var v' := v[AttKey(id) := Entry("", 1, At(cfg.lockout))];
    ViewAll(v');
    var w := World(v, 0, Counting, 0, k);
    events', worlds' := Extend(cfg, max, id, events, worlds, Op.Get(LockKey(id)), w);
    w := World(v', 0, Comparing, 0, k);
    events', worlds' := Extend(cfg, max, id, events', worlds', Op.Incr(AttKey(id), cfg.lockout), w);
    w := World(v', 0, Idle, 0, k + 1);
    events', worlds' := Extend(cfg, max, id, events', worlds', Op.Get(CodeKey(id)), w);
  }

  /** Another user of the full cache makes it evict an entry of earliest expiry, and leaves. */
  lemma Evict(cfg: Config, id: string, max: nat, events: seq<Timed>, worlds: seq<World>, w: World, victim: string)
    returns (events': seq<Timed>, worlds': seq<World>)
    requires Configured(cfg) && IsRun(cfg, max, id, events, worlds) && worlds[|events|] == w && w.now == 0
    requires |w.v| == max && "g" !in w.v && Soonest(w.v, victim) && AllLive(w.v)
    ensures IsRun(cfg, max, id, events', worlds') && worlds'[|events'|] == w.(v := w.v - {victim})
  {
    ForeignKey(id, "g");
    var left, g := w.v - {victim}, Stored(0, "", cfg.ttl);
    ViewAll(w.v);
    ViewAll(left["g" := g]);
    events', worlds' := Extend(cfg, max, id, events, worlds, Op.Set("g", "", cfg.ttl), w.(v := left["g" := g]));
    assert left["g" := g] - {"g"} == left;
    events', worlds' := Extend(cfg, max, id, events', worlds', Op.Delete("g"), w.(v := left));
  }

  /** The counter is evicted before the code. */
  lemma LoseCounter(cfg: Config, id: string, max: nat, events: seq<Timed>, worlds: seq<World>, v: Store, k: nat)
    returns (events': seq<Timed>, worlds': seq<World>)
    requires Configured(cfg) && IsRun(cfg, max, id, events, worlds) && Base(cfg, id, max, v)
    requires worlds[|events|] == World(v[AttKey(id) := Entry("", 1, At(cfg.lockout))], 0, Idle, 0, k)
    ensures IsRun(cfg, max, id, events', worlds') && worlds'[|events'|] == World(v, 0, Idle, 0, k)
  {
    ForeignKey(id, "g");
    SizeAfter(v, AttKey(id), Entry("", 1, At(cfg.lockout)));
    events', worlds' := Evict(cfg, id, max, events, worlds, worlds[|events|], AttKey(id));
    assert v[AttKey(id) := Entry("", 1, At(cfg.lockout))] - {AttKey(id)} == v;
  }

  lemma {:induction false} ManyGuesses(cfg: Config, id: string, max: nat, events: seq<Timed>, worlds: seq<World>,
                                       v: Store, k: nat)
    returns (events': seq<Timed>, worlds': seq<World>)
    requires Configured(cfg) && IsRun(cfg, max, id, events, worlds) && Base(cfg, id, max, v)
    requires worlds[|events|] == World(v, 0, Idle, 0, 0)
    ensures IsRun(cfg, max, id, events', worlds') && worlds'[|events'|] == World(v, 0, Idle, 0, k)
    decreases k
  {
    events', worlds' := events, worlds;
    if k > 0 {
      events', worlds' := ManyGuesses(cfg, id, max, events, worlds, v, k - 1);
      events', worlds' := Guess(cfg, id, max, events', worlds', v, k - 1);
      events', worlds' := LoseCounter(cfg, id, max, events', worlds', v, k);
    }
  }

  /** A lifetime as long as the cooldown and as a code's. */
  function Long(cfg: Config): int { if cfg.cooldown < cfg.ttl then cfg.ttl else cfg.cooldown }

  /** Entries of other users that live at least that long, under names shorter than n + 2. */
  ghost predicate Crowd(cfg: Config, id: string, v: Store, n: nat)
  {
    forall k :: k in v ==> !OwnKey(id, k) && k != "g" && |k| < n + 2 && Live(v[k], 0) && Rank(v[k]) >= Long(cfg)
  }

  /** A claimed cooldown, beside n - 1 entries of other users. */
  ghost predicate ClaimedAmong(cfg: Config, id: string, w: World, n: nat)
  {
    var cd := CooldownKey(id);
    && w == World(w.v, 0, Claimed, 0, 0) && |w.v| == n
    && cd in w.v && w.v[cd] == Stored(0, "\U{1}", cfg.cooldown) && Crowd(cfg, id, w.v - {cd}, n)
  }

  lemma FirstClaim(cfg: Config, id: string, max: nat) returns (events: seq<Timed>, worlds: seq<World>)
    requires Configured(cfg) && 1 <= max
    ensures IsRun(cfg, max, id, events, worlds) && ClaimedAmong(cfg, id, worlds[|events|], 1)
  {
    KeysApart(id, id);
    var cd := CooldownKey(id);
    ViewAll(START.v);
    events, worlds := Extend(cfg, max, id, [], [START], Op.Get(LockKey(id)), START.(phase := Claiming));
    var v: Store := map[cd := Stored(0, "\U{1}", cfg.cooldown)];
    events, worlds := Extend(cfg, max, id, events, worlds, Op.SetNX(cd, "\U{1}", cfg.cooldown),
                             World(v, 0, Claimed, 0, 0));
    assert v - {cd} == map[];
  }

  lemma CrowdGrows(cfg: Config, id: string, v: Store, n: nat, key: string)
    requires Configured(cfg) && Crowd(cfg, id, v, n) && |key| == n + 2 && !OwnKey(id, key)
    ensures key !in v && Crowd(cfg, id, v[key := Stored(0, "", Long(cfg))], n + 1)
  {
  }

  lemma CrowdLives(cfg: Config, id: string, v: Store, cd: string, n: nat)
    requires Configured(cfg) && Crowd(cfg, id, v - {cd}, n) && (cd in v ==> Live(v[cd], 0))
    ensures AllLive(v)
  {
    forall k | k in v
      ensures Live(v[k], 0)
    {
      assert k == cd || k in v - {cd};
    }
  }

  /** One more entry of another user. */
  lemma Joined(cfg: Config, id: string, w: World, n: nat, key: string)
    requires Configured(cfg) && n >= 1 && ClaimedAmong(cfg, id, w, n) && |key| == n + 2 && !OwnKey(id, key)
    ensures key !in w.v && AllLive(w.v)
    ensures ClaimedAmong(cfg, id, w.(v := w.v[key := Stored(0, "", Long(cfg))]), n + 1)
  {
    var cd, x := CooldownKey(id), Stored(0, "", Long(cfg));
    CrowdGrows(cfg, id, w.v - {cd}, n, key);
    CrowdLives(cfg, id, w.v, cd, n);
    SizeAfter(w.v, key, x);
    assert w.v[key := x] - {cd} == (w.v - {cd})[key := x];
  }

  /** Beside a claimed cooldown other users fill the cache. */
  lemma {:induction false} Crowded(cfg: Config, id: string, max: nat, n: nat)
    returns (events: seq<Timed>, worlds: seq<World>)
    requires Configured(cfg) && 1 <= n <= max
    ensures IsRun(cfg, max, id, events, worlds) && ClaimedAmong(cfg, id, worlds[|events|], n)
    decreases n
  {
    if n == 1 {
      events, worlds := FirstClaim(cfg, id, max);
    } else {
      events, worlds := Crowded(cfg, id, max, n - 1);
      var w, key := worlds[|events|], seq(n + 1, _ => 'f');
      ForeignKey(id, key);
      Joined(cfg, id, w, n - 1, key);
      ViewAll(w.v);
      events, worlds := Extend(cfg, max, id, events, worlds, Op.Set(key, "", Long(cfg)),
                               w.(v := w.v[key := Stored(0, "", Long(cfg))]));
    }
  }

  /** The cooldown is evicted before the code is stored, and one of the others leaves. */
  lemma Unclaimed(cfg: Config, id: string, max: nat) returns (events: seq<Timed>, worlds: seq<World>)
    requires Configured(cfg) && max >= 2
    ensures IsRun(cfg, max, id, events, worlds)
    ensures var w := worlds[|events|];
            w == World(w.v, 0, Claimed, 0, 0) && |w.v| + 2 == max && Crowd(cfg, id, w.v, max)
  {
    events, worlds := Crowded(cfg, id, max, max);
    var w, cd := worlds[|events|], CooldownKey(id);
    assert forall k :: k in w.v ==> k == cd || k in w.v - {cd};
    ForeignKey(id, "g");
    SizeWithout(w.v, cd);
    events, worlds := Evict(cfg, id, max, events, worlds, w, cd);
    w := worlds[|events|];
    assert |w.v.Keys| == |w.v|;
    var k :| k in w.v.Keys;
    SizeWithout(w.v, k);
    ViewAll(w.v);
    events, worlds := Extend(cfg, max, id, events, worlds, Op.Delete(k), w.(v := w.v - {k}));
  }

  lemma CodeJoins(cfg: Config, id: string, max: nat, v: Store)
    requires Configured(cfg) && cfg.lockout <= cfg.ttl && |v| + 2 == max && Crowd(cfg, id, v, max)
    ensures AllLive(v)
    ensures var v' := v[CodeKey(id) := Stored(0, "", cfg.ttl)]; Base(cfg, id, max, v') && v' - {AttKey(id)} == v'
  {
    KeysApart(id, id);
    ForeignKey(id, "g");
    SizeAfter(v, CodeKey(id), Stored(0, "", cfg.ttl));
    var v' := v[CodeKey(id) := Stored(0, "", cfg.ttl)];
    assert AttKey(id) !in v';
    assert v' - {AttKey(id)} == v';
  }

  /** A code is stored in a cache that has room for one more entry. */
  lemma Issued(cfg: Config, id: string, max: nat) returns (events: seq<Timed>, worlds: seq<World>)
    requires Configured(cfg) && max >= 2 && cfg.lockout <= cfg.ttl
    ensures IsRun(cfg, max, id, events, worlds)
    ensures var w := worlds[|events|]; w == World(w.v, 0, Idle, 0, 0) && Base(cfg, id, max, w.v)
  {
    KeysApart(id, id);
    events, worlds := Unclaimed(cfg, id, max);
    var w := worlds[|events|];
    var v := w.v[CodeKey(id) := Stored(0, "", cfg.ttl)];
    CodeJoins(cfg, id, max, w.v);
    ViewAll(w.v);
    events, worlds := Extend(cfg, max, id, events, worlds, Op.Set(CodeKey(id), "", cfg.ttl),
                             World(v, 0, Resetting, 0, 0));
    ViewAll(v);
    events, worlds := Extend(cfg, max, id, events, worlds, Op.Delete(AttKey(id)), World(v, 0, Idle, 0, 0));
  }

  /** A lifetime that is no shorter than the lockout lets a cache of any size from two entries on
      lose the counter first, so a code can be compared any number of times. */
  lemma AnyNumberOfGuesses(cfg: Config, id: string, max: nat, k: nat) returns (events: seq<Timed>, worlds: seq<World>)
    requires Configured(cfg) && max >= 2 && cfg.lockout <= cfg.ttl
    ensures IsRun(cfg, max, id, events, worlds) && worlds[|events|].guesses == k
  {
    events, worlds := Issued(cfg, id, max);
    events, worlds := ManyGuesses(cfg, id, max, events, worlds, worlds[|events|].v, k);
  }

  /** On a bounded cache, whatever else is stored in it, every code is compared with at most
      MaxAttempts guesses, if and only if the lockout is longer than the lifetime of a code (or
      the cache holds one entry only, and a counted attempt pushes the code out). */
  lemma BoundedGuessesIff(cfg: Config, id: string, max: nat)
    requires Configured(cfg) && max >= 1
    ensures (forall events: seq<Timed>, worlds: seq<World>, i: nat ::
               IsRun(cfg, max, id, events, worlds) && i < |worlds| ==> worlds[i].guesses <= cfg.maxAttempts)
            <==> max == 1 || cfg.lockout > cfg.ttl
  {
    if max == 1 || cfg.lockout > cfg.ttl {
      forall events: seq<Timed>, worlds: seq<World>, i: nat | IsRun(cfg, max, id, events, worlds) && i < |worlds|
        ensures worlds[i].guesses <= cfg.maxAttempts
      {
        if max == 1 {
          LoneRun(cfg, id, events, worlds, i);
        } else {
          RunKeeps(cfg, max, id, events, worlds, i);
        }
      }
    } else {
      var events, worlds := AnyNumberOfGuesses(cfg, id, max, cfg.maxAttempts + 1);
      assert worlds[|events|].guesses > cfg.maxAttempts;
    }
  }
}
