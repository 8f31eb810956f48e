/**
 One-time codes: issue and verify as steps over the cache. All state of a destination is
 four cache entries: a lock, a resend cooldown, the pending code, and an attempt counter.
 Every cache operation reads the clock on its own.
 */
module OtpSteps {
  import opened Arithmetic
  import opened Options
  import opened TtlMap

  /** Lifetimes in nanoseconds. */
  datatype Config = Config(length: int, ttl: int, cooldown: int, maxAttempts: int, lockout: int)

  ghost predicate Configured(cfg: Config)
  {
    4 <= cfg.length <= 10 && cfg.ttl > 0 && cfg.cooldown > 0 && cfg.maxAttempts > 0 && cfg.lockout > 0
  }

  const SECOND := 1_000_000_000

  /** Validation and defaults of a new service: whether a cache and a sender are given, and the
      length of the secret in bytes. */
  function New(cfg: Config, wired: bool, secret: nat): (r: Option<Config>)
    ensures r.Some? ==> Configured(r.value)
    ensures r.Some? <==> wired && secret >= 32 && (cfg.length == 0 || 4 <= cfg.length <= 10)
  {
    var length := if cfg.length == 0 then 6 else cfg.length;
    if !wired || secret < 32 || length < 4 || length > 10 then None
    else Some(Config(
      length,
      if cfg.ttl <= 0 then 600 * SECOND else cfg.ttl,
      if cfg.cooldown <= 0 then 60 * SECOND else cfg.cooldown,
      if cfg.maxAttempts <= 0 then 5 else cfg.maxAttempts,
      if cfg.lockout <= 0 then 900 * SECOND else cfg.lockout))
  }

  /** What is left open gets its default: six digits for ten minutes, a minute between codes, five
      attempts, and a lockout of a quarter of an hour. What is set is kept. */
  lemma Defaults(cfg: Config, secret: nat)
    requires secret >= 32
    ensures New(Config(0, 0, 0, 0, 0), true, secret)
            == Some(Config(6, 600 * SECOND, 60 * SECOND, 5, 900 * SECOND))
    ensures Configured(cfg) ==> New(cfg, true, secret) == Some(cfg)
  {
  }

  /** The cache entries of one destination. */
  datatype Slots = Slots(lock: Option<Entry>, cooldown: Option<Entry>, code: Option<Entry>, att: Option<Entry>)

  const EMPTY := Slots(None, None, None, None)

  predicate IsLive(e: Option<Entry>, now: int) { e.Some? && Live(e.value, now) }

  datatype Result = Ok | ErrInvalid | ErrCooldown | ErrLocked | ErrDestination | ErrEntropy | ErrSend

  /** The clock readings of one call, and what its inputs come down to: an issue stores
      the keyed hash `mac` unless entropy fails, and keeps it unless the send fails; a
      verify presents the keyed hash of the guess. */
  datatype Event =
    | Issue(locked: int, claimed: int, stored: int, entropy: bool, sent: bool, mac: string)
    | Verify(locked: int, counted: int, read: int, mac: string)

  function First(e: Event): int { e.locked }

  function Last(e: Event): int { match e case Issue(_, _, t, _, _, _) => t case Verify(_, _, t, _) => t }

  ghost predicate InOrder(e: Event)
  {
    match e
    case Issue(a, b, c, _, _, _) => a <= b <= c
    case Verify(a, b, c, _) => a <= b <= c
  }

  // ---------------------------------------------------------------- steps

  function AfterIssue(cfg: Config, s: Slots, e: Event): (Slots, Result)
    requires e.Issue?
  {
    if IsLive(s.lock, e.locked) then (s, ErrLocked)
    else if IsLive(s.cooldown, e.claimed) then (s, ErrCooldown)
    else
      var cd := Some(Stored(e.claimed, "\U{1}", cfg.cooldown));
      if !e.entropy then (s.(cooldown := None), ErrEntropy)
      else
        var s' := s.(cooldown := cd, code := Some(Stored(e.stored, e.mac, cfg.ttl)), att := None);
        if !e.sent then (s'.(code := None, cooldown := None), ErrSend) else (s', Ok)
  }

  /** The attempt counter after one more attempt. */
  function Attempt(cfg: Config, s: Slots, now: int): Entry
  {
    if IsLive(s.att, now) then s.att.value.(n := s.att.value.n + 1)
    else Entry("", 1, ExpiryOf(now, cfg.lockout))
  }

  /** The third result says whether the guess was compared with a pending code. */
  function AfterVerify(cfg: Config, s: Slots, e: Event): (Slots, Result, bool)
    requires e.Verify?
  {
    if IsLive(s.lock, e.locked) then (s, ErrLocked, false)
    else
      var att := Attempt(cfg, s, e.counted);
      if att.n > cfg.maxAttempts then
        (s.(att := Some(att), lock := Some(Stored(e.read, "\U{1}", cfg.lockout)), code := None), ErrLocked, false)
      else if !IsLive(s.code, e.read) then (s.(att := Some(att)), ErrInvalid, false)
      else if s.code.value.value != e.mac then (s.(att := Some(att)), ErrInvalid, true)
      else (s.(code := None, att := None), Ok, true)
  }

  /** The issue got as far as storing a code. */
  predicate Stores(s: Slots, e: Event)
  {
    e.Issue? && !IsLive(s.lock, e.locked) && !IsLive(s.cooldown, e.claimed) && e.entropy
  }

  // ---------------------------------------------------------------- runs

  /** What one event did to a code: compared a guess with the code stored by the numbered
      event, and whether it was right. */
  datatype Note = Nothing | Compared(issue: nat, ok: bool)

  datatype Run = Run(slots: Slots, current: Option<nat>, notes: seq<Note>)

  /** The run after event number n. */
  function Next(cfg: Config, before: Run, n: nat, e: Event): (r: Run)
    ensures |r.notes| == |before.notes| + 1
  {
    if e.Issue? then
      Run(AfterIssue(cfg, before.slots, e).0,
          if Stores(before.slots, e) then Some(n) else before.current,
          before.notes + [Nothing])
    else
      var (s, r, compared) := AfterVerify(cfg, before.slots, e);
      Run(s, before.current,
          before.notes
          + [if compared && before.current.Some? then Compared(before.current.value, r == Ok) else Nothing])
  }

  function Exec(cfg: Config, events: seq<Event>): (r: Run)
    ensures |r.notes| == |events|
  {
    if events == [] then Run(EMPTY, None, [])
    else Next(cfg, Exec(cfg, events[..|events| - 1]), |events| - 1, events[|events| - 1])
  }

  /** Calls follow each other on a clock that never goes back. */
  ghost predicate Sequential(events: seq<Event>)
  {
    && (forall i :: 0 <= i < |events| ==> InOrder(events[i]))
    && forall i :: 0 < i < |events| ==> Last(events[i - 1]) <= First(events[i])
  }

  function Guesses(notes: seq<Note>, j: nat): nat
  {
    if notes == [] then 0
    else Guesses(notes[..|notes| - 1], j)
         + (if notes[|notes| - 1].Compared? && notes[|notes| - 1].issue == j then 1 else 0)
  }

  function Wins(notes: seq<Note>, j: nat): nat
  {
    if notes == [] then 0
    else Wins(notes[..|notes| - 1], j)
         + (if notes[|notes| - 1] == Compared(j, true) then 1 else 0)
  }

  lemma GuessesSnoc(notes: seq<Note>, x: Note, j: nat)
    ensures Guesses(notes + [x], j) == Guesses(notes, j) + (if x.Compared? && x.issue == j then 1 else 0)
    ensures Wins(notes + [x], j) == Wins(notes, j) + (if x == Compared(j, true) then 1 else 0)
  {
    assert (notes + [x])[..|notes|] == notes;
  }

  // ---------------------------------------------------------------- the guess bound

  function Ceiling(a: int, b: int): int
    requires b > 0
  {
    (a + b - 1) / b
  }

  function Capped(n: int, m: nat): nat { if n < 0 then 0 else if n < m then n else m }

  /** How many comparisons the code may have seen: those of the finished attempt windows
      plus the count of the current one. `issued` is when the code was stored; windows
      start after that and one lockout apart. */
  ghost predicate Spent(cfg: Config, att: Option<Entry>, issued: int, guesses: nat)
    requires Configured(cfg)
  {
    if att.None? then guesses == 0
    else
      && att.value.n >= 1 && att.value.expires.At?
      && var q := (att.value.expires.t - issued) / cfg.lockout;
         q >= 1 && guesses <= Times(q - 1, cfg.maxAttempts) + Capped(att.value.n, cfg.maxAttempts)
  }

  ghost function Limit(cfg: Config): nat
    requires Configured(cfg)
  {
    Times(Ceiling(cfg.ttl, cfg.lockout), cfg.maxAttempts)
  }

  /** The pending code, with the comparisons it has seen by `now`. */
  ghost predicate Pending(cfg: Config, s: Slots, issued: int, guesses: nat, now: int)
    requires Configured(cfg)
  {
    && guesses <= Limit(cfg)
    && (s.att.Some? ==> s.att.value.expires.At? && s.att.value.expires.t <= now + cfg.lockout)
    && (s.code.Some? ==>
          issued <= now && s.code.value.expires == At(issued + cfg.ttl) && Spent(cfg, s.att, issued, guesses))
  }

  lemma WindowsAdd(a: int, b: int, l: int)
    requires l > 0 && a + l <= b
    ensures a / l + 1 <= b / l
  {
  }

  lemma DivisionMonotone(a: int, b: int, l: int)
    requires l > 0 && a <= b
    ensures a / l <= b / l
  {
    var qa, qb := a / l, b / l;
    assert a == l * qa + a % l && b == l * qb + b % l;
    if qa > qb {
      AtLeast(l, qa - qb);
      assert false;
    }
  }

  /** One more attempt keeps the account, also when it opens a new window. */
  lemma AttemptSpends(cfg: Config, s: Slots, now: int, issued: int, guesses: nat)
    requires Configured(cfg) && Spent(cfg, s.att, issued, guesses) && issued <= now
    requires Attempt(cfg, s, now).n <= cfg.maxAttempts
    ensures Spent(cfg, Some(Attempt(cfg, s, now)), issued, guesses + 1)
  {
    var a, m := Attempt(cfg, s, now), cfg.maxAttempts;
    if s.att.Some? {
      var x := s.att.value.expires.t;
      var q := (x - issued) / cfg.lockout;
      if !IsLive(s.att, now) {
        WindowsAdd(x - issued, now + cfg.lockout - issued, cfg.lockout);
        var q' := (now + cfg.lockout - issued) / cfg.lockout;
        TimesMonotone(q' - 1, q, m);
      }
    } else {
      WindowsAdd(0, now + cfg.lockout - issued, cfg.lockout);
    }
  }

  lemma SpentWeaken(cfg: Config, att: Option<Entry>, issued: int, guesses: nat)
    requires Configured(cfg) && att.Some? && Spent(cfg, att, issued, guesses + 1)
    ensures Spent(cfg, att, issued, guesses)
  {
  }

  /** While the code is alive the account stays within the limit. */
  lemma WithinLimit(cfg: Config, att: Entry, now: int, issued: int, guesses: nat)
    requires Configured(cfg) && now < issued + cfg.ttl
    requires Spent(cfg, Some(att), issued, guesses) && att.expires.t <= now + cfg.lockout
    ensures guesses <= Limit(cfg)
  {
    var q := (att.expires.t - issued) / cfg.lockout;
    DivisionMonotone(att.expires.t - issued, cfg.ttl + cfg.lockout - 1, cfg.lockout);
    TimesMonotone(Ceiling(cfg.ttl, cfg.lockout), q, cfg.maxAttempts);
    assert Times(q, cfg.maxAttempts) == cfg.maxAttempts + Times(q - 1, cfg.maxAttempts);
  }

  lemma VerifyKeeps(cfg: Config, s: Slots, e: Event, issued: int, guesses: nat, now: int)
    requires Configured(cfg) && e.Verify? && InOrder(e) && now <= First(e) && Pending(cfg, s, issued, guesses, now)
    ensures var (s', r, compared) := AfterVerify(cfg, s, e);
            Pending(cfg, s', issued, guesses + (if compared then 1 else 0), Last(e))
  {
    var att := Attempt(cfg, s, e.counted);
    if !IsLive(s.lock, e.locked) && att.n <= cfg.maxAttempts && s.code.Some? {
      AttemptSpends(cfg, s, e.counted, issued, guesses);
      SpentWeaken(cfg, Some(att), issued, guesses);
      if IsLive(s.code, e.read) {
        WithinLimit(cfg, att, e.counted, issued, guesses + 1);
      }
    }
  }

  lemma IssueKeeps(cfg: Config, s: Slots, e: Event, issued: int, guesses: nat, now: int)
    requires Configured(cfg) && e.Issue? && InOrder(e) && now <= First(e) && Pending(cfg, s, issued, guesses, now)
    ensures var s' := AfterIssue(cfg, s, e).0;
            if Stores(s, e) then Pending(cfg, s', e.stored, 0, Last(e)) else Pending(cfg, s', issued, guesses, Last(e))
  {
  }

  /** When the pending code was stored, by the number of the event that stored it. */
  ghost function IssuedAt(events: seq<Event>, current: Option<nat>): int
  {
    if current.Some? && current.value < |events| && events[current.value].Issue?
    then events[current.value].stored else 0
  }

  ghost function SeenBy(notes: seq<Note>, current: Option<nat>): nat
  {
    if current.Some? then Guesses(notes, current.value) else 0
  }

  /** Holds after every run, at any time from its end on. */
  ghost predicate Sound(cfg: Config, events: seq<Event>, r: Run, now: int)
    requires Configured(cfg)
  {
    && (r.current.Some? ==> r.current.value < |events| && events[r.current.value].Issue?)
    && (r.slots.code.Some? ==> r.current.Some? && Wins(r.notes, r.current.value) == 0)
    && Pending(cfg, r.slots, IssuedAt(events, r.current), SeenBy(r.notes, r.current), now)
    && (forall j: nat :: j >= |events| ==> Guesses(r.notes, j) == 0 && Wins(r.notes, j) == 0)
    && (forall j: nat :: Guesses(r.notes, j) <= Limit(cfg) && Wins(r.notes, j) <= 1)
  }

  lemma SoundLater(cfg: Config, events: seq<Event>, r: Run, now: int, later: int)
    requires Configured(cfg) && Sound(cfg, events, r, now) && now <= later
    ensures Sound(cfg, events, r, later)
  {
  }

  lemma IssueSound(cfg: Config, events: seq<Event>, before: Run, e: Event, now: int)
    requires Configured(cfg) && e.Issue? && InOrder(e) && now <= First(e) && Sound(cfg, events, before, now)
    ensures Sound(cfg, events + [e], Next(cfg, before, |events|, e), Last(e))
  {
    var r := Next(cfg, before, |events|, e);
    forall j: nat
      ensures Guesses(r.notes, j) == Guesses(before.notes, j) && Wins(r.notes, j) == Wins(before.notes, j)
    {
      GuessesSnoc(before.notes, Nothing, j);
    }
    IssueKeeps(cfg, before.slots, e, IssuedAt(events, before.current), SeenBy(before.notes, before.current), now);
  }

  lemma VerifySound(cfg: Config, events: seq<Event>, before: Run, e: Event, now: int)
    requires Configured(cfg) && e.Verify? && InOrder(e) && now <= First(e) && Sound(cfg, events, before, now)
    ensures Sound(cfg, events + [e], Next(cfg, before, |events|, e), Last(e))
  {
    var r := Next(cfg, before, |events|, e);
    VerifyKeeps(cfg, before.slots, e, IssuedAt(events, before.current), SeenBy(before.notes, before.current), now);
    VerifyNotes(cfg, before, |events|, e);
    assert IssuedAt(events + [e], r.current) == IssuedAt(events, before.current);
  }

  /** What a verify adds to the counts. */
  lemma VerifyNotes(cfg: Config, before: Run, n: nat, e: Event)
    requires e.Verify?
    ensures var r, (s, res, compared) := Next(cfg, before, n, e), AfterVerify(cfg, before.slots, e);
            forall j: nat ::
              var seen := compared && before.current == Some(j);
              && Guesses(r.notes, j) == Guesses(before.notes, j) + (if seen then 1 else 0)
              && Wins(r.notes, j) == Wins(before.notes, j) + (if seen && res == Ok then 1 else 0)
  {
    var r := Next(cfg, before, n, e);
    var x := r.notes[|before.notes|];
    assert r.notes == before.notes + [x];
    forall j: nat
      ensures Guesses(r.notes, j) == Guesses(before.notes, j) + (if x.Compared? && x.issue == j then 1 else 0)
      ensures Wins(r.notes, j) == Wins(before.notes, j) + (if x == Compared(j, true) then 1 else 0)
    {
      GuessesSnoc(before.notes, x, j);
    }
  }

  lemma StepSound(cfg: Config, events: seq<Event>, before: Run, e: Event, now: int)
    requires Configured(cfg) && InOrder(e) && now <= First(e) && Sound(cfg, events, before, now)
    ensures Sound(cfg, events + [e], Next(cfg, before, |events|, e), Last(e))
  {
    if e.Issue? {
      IssueSound(cfg, events, before, e, now);
    } else {
      VerifySound(cfg, events, before, e, now);
    }
  }

  lemma {:induction false} ExecSound(cfg: Config, events: seq<Event>, now: int)
    requires Configured(cfg) && Sequential(events) && (events != [] ==> Last(events[|events| - 1]) <= now)
    ensures Sound(cfg, events, Exec(cfg, events), now)
    decreases |events|
  {
    if events != [] {
      var n := |events| - 1;
      var e := events[n];
      ExecSound(cfg, events[..n], First(e));
      StepSound(cfg, events[..n], Exec(cfg, events[..n]), e, First(e));
      assert events[..n] + [e] == events;
      SoundLater(cfg, events, Exec(cfg, events), Last(e), now);
    }
  }

  /** Over any sequential run, whatever re-issues, failed sends and lockouts it holds, each
      stored code is compared with at most MaxAttempts guesses per started lockout period
      of its lifetime, and is accepted at most once. */
  lemma GuessBound(cfg: Config, events: seq<Event>, j: nat)
    requires Configured(cfg) && Sequential(events)
    ensures Guesses(Exec(cfg, events).notes, j) <= cfg.maxAttempts * Ceiling(cfg.ttl, cfg.lockout)
    ensures Wins(Exec(cfg, events).notes, j) <= 1
  {
    ExecSound(cfg, events, if events == [] then 0 else Last(events[|events| - 1]));
    TimesIsProduct(Ceiling(cfg.ttl, cfg.lockout), cfg.maxAttempts);
  }

  /** With the default lifetimes a code is compared at most MaxAttempts times. */
  lemma DefaultGuessBound(length: int, attempts: int, secret: nat, events: seq<Event>, j: nat)
    requires New(Config(length, 0, 0, attempts, 0), true, secret).Some? && Sequential(events)
    ensures var cfg := New(Config(length, 0, 0, attempts, 0), true, secret).value;
            Guesses(Exec(cfg, events).notes, j) <= cfg.maxAttempts
  {
    GuessBound(New(Config(length, 0, 0, attempts, 0), true, secret).value, events, j);
  }

  // ---------------------------------------------------------------- cooldown and lockout

  /** The entries before the numbered event of a run. */
  function SlotsBefore(cfg: Config, events: seq<Event>, i: nat): Slots
    requires i <= |events|
  {
    Exec(cfg, events[..i]).slots
  }

  /** The numbered event sent a code. */
  predicate Sends(cfg: Config, events: seq<Event>, i: nat)
    requires i < |events|
  {
    events[i].Issue? && AfterIssue(cfg, SlotsBefore(cfg, events, i), events[i]).1 == Ok
  }

  /** The numbered event exceeded the attempts. */
  predicate LocksOut(cfg: Config, events: seq<Event>, i: nat)
    requires i < |events|
  {
    var s, e := SlotsBefore(cfg, events, i), events[i];
    e.Verify? && !IsLive(s.lock, e.locked) && Attempt(cfg, s, e.counted).n > cfg.maxAttempts
  }

  lemma SlotsStep(cfg: Config, events: seq<Event>, n: nat)
    requires n < |events|
    ensures var s, e := SlotsBefore(cfg, events, n), events[n];
            SlotsBefore(cfg, events, n + 1) == if e.Issue? then AfterIssue(cfg, s, e).0 else AfterVerify(cfg, s, e).0
  {
    assert events[..n + 1][..n] == events[..n];
  }

  /** After a sent code its cooldown stays in place until it has expired. */
  lemma {:induction false} CooldownStays(cfg: Config, events: seq<Event>, i: nat, n: nat)
    requires Configured(cfg) && Sequential(events) && i < n <= |events| && Sends(cfg, events, i)
    ensures var c := events[i].claimed;
            || SlotsBefore(cfg, events, n).cooldown == Some(Stored(c, "\U{1}", cfg.cooldown))
            || c + cfg.cooldown <= Last(events[n - 1])
  {
    SlotsStep(cfg, events, n - 1);
    if n - 1 > i {
      CooldownStays(cfg, events, i, n - 1);
    }
  }

  /** Over any run, codes go out at least a cooldown apart, whatever fails in between. */
  lemma SendsSpaced(cfg: Config, events: seq<Event>, i: nat, j: nat)
    requires Configured(cfg) && Sequential(events) && i < j < |events| && Sends(cfg, events, i) && Sends(cfg, events, j)
    ensures events[i].claimed + cfg.cooldown <= events[j].claimed
  {
    CooldownStays(cfg, events, i, j);
  }

  /** A cooldown in place was set by an event that sent a code. */
  lemma {:induction false} CooldownBacked(cfg: Config, events: seq<Event>, n: nat)
    requires n <= |events| && SlotsBefore(cfg, events, n).cooldown.Some?
    ensures exists i: nat :: i < n && Sends(cfg, events, i)
              && SlotsBefore(cfg, events, n).cooldown == Some(Stored(events[i].claimed, "\U{1}", cfg.cooldown))
  {
    if n > 0 {
      var k := n - 1;
      SlotsStep(cfg, events, k);
      if Sends(cfg, events, k) {
        assert SlotsBefore(cfg, events, n).cooldown == Some(Stored(events[k].claimed, "\U{1}", cfg.cooldown));
      } else {
        CooldownBacked(cfg, events, k);
      }
    }
  }

  /** Over any run, an issue that finds no lock is told to wait exactly when a code went out
      less than a cooldown before: a failed send or failed entropy blocks no retry. */
  lemma CooldownIff(cfg: Config, events: seq<Event>, j: nat)
    requires Configured(cfg) && Sequential(events) && j < |events| && events[j].Issue?
    requires !IsLive(SlotsBefore(cfg, events, j).lock, events[j].locked)
    ensures AfterIssue(cfg, SlotsBefore(cfg, events, j), events[j]).1 == ErrCooldown <==>
            exists i: nat :: i < j && Sends(cfg, events, i) && events[j].claimed < events[i].claimed + cfg.cooldown
  {
    var s, e := SlotsBefore(cfg, events, j), events[j];
    if IsLive(s.cooldown, e.claimed) {
      CooldownBacked(cfg, events, j);
    }
    if i: nat :| i < j && Sends(cfg, events, i) && e.claimed < events[i].claimed + cfg.cooldown {
      CooldownStays(cfg, events, i, j);
    }
  }

  /** After a lockout the lock stays in place until it has expired, and no code is pending
      unless one is issued after that. */
  lemma {:induction false} LockStays(cfg: Config, events: seq<Event>, i: nat, n: nat)
    requires Configured(cfg) && Sequential(events) && i < n <= |events| && LocksOut(cfg, events, i)
    ensures var t, s := events[i].read, SlotsBefore(cfg, events, n);
            || (s.lock == Some(Stored(t, "\U{1}", cfg.lockout)) && s.code.None?)
            || t + cfg.lockout <= Last(events[n - 1])
  {
    SlotsStep(cfg, events, n - 1);
    if n - 1 > i {
      LockStays(cfg, events, i, n - 1);
    }
  }

  lemma {:induction false} LockBacked(cfg: Config, events: seq<Event>, n: nat)
    requires n <= |events| && SlotsBefore(cfg, events, n).lock.Some?
    ensures exists i: nat :: i < n && LocksOut(cfg, events, i)
              && SlotsBefore(cfg, events, n).lock == Some(Stored(events[i].read, "\U{1}", cfg.lockout))
  {
    if n > 0 {
      var k := n - 1;
      SlotsStep(cfg, events, k);
      if LocksOut(cfg, events, k) {
        assert SlotsBefore(cfg, events, n).lock == Some(Stored(events[k].read, "\U{1}", cfg.lockout));
      } else {
        LockBacked(cfg, events, k);
      }
    }
  }

  /** The call is refused by the lock and changes nothing. */
  ghost predicate Refused(cfg: Config, s: Slots, e: Event)
  {
    if e.Issue? then AfterIssue(cfg, s, e) == (s, ErrLocked) else AfterVerify(cfg, s, e) == (s, ErrLocked, false)
  }

  /** Over any run, a call is refused by the lock exactly when it begins less than a lockout
      after a guess that exceeded the attempts. */
  lemma LockedIff(cfg: Config, events: seq<Event>, j: nat)
    requires Configured(cfg) && Sequential(events) && j < |events|
    ensures Refused(cfg, SlotsBefore(cfg, events, j), events[j]) <==>
            exists i: nat :: i < j && LocksOut(cfg, events, i) && events[j].locked < events[i].read + cfg.lockout
  {
    var s, e := SlotsBefore(cfg, events, j), events[j];
    if IsLive(s.lock, e.locked) {
      LockBacked(cfg, events, j);
    }
    if i: nat :| i < j && LocksOut(cfg, events, i) && e.locked < events[i].read + cfg.lockout {
      LockStays(cfg, events, i, j);
    }
  }

  // ---------------------------------------------------------------- the bound is reached

  /** The start of the q-th lockout period. */
  function Period(cfg: Config, q: nat): nat
    requires Configured(cfg)
  {
    Times(q, cfg.lockout)
  }

  /** An issue at time 0, then MaxAttempts wrong guesses at the start of each of q lockout
      periods, and m more at the start of the next. */
  function Patient(cfg: Config, q: nat, m: nat): (events: seq<Event>)
    requires Configured(cfg) && m <= cfg.maxAttempts
    ensures events != []
    decreases q, m
  {
    if m > 0 then
      var t := Period(cfg, q);
      Patient(cfg, q, m - 1) + [Verify(t, t, t, "wrong")]
    else if q > 0 then Patient(cfg, q - 1, cfg.maxAttempts)
    else [Issue(0, 0, 0, true, true, "right")]
  }

  lemma {:induction false} PatientSequential(cfg: Config, q: nat, m: nat)
    requires Configured(cfg) && m <= cfg.maxAttempts
    ensures Sequential(Patient(cfg, q, m))
    ensures var events := Patient(cfg, q, m); Last(events[|events| - 1]) <= Period(cfg, q)
    decreases q, m
  {
    if m > 0 {
      PatientSequential(cfg, q, m - 1);
    } else if q > 0 {
      PatientSequential(cfg, q - 1, cfg.maxAttempts);
    }
  }

  /** The attempt counter after m guesses in period q. */
  function PatientAtt(cfg: Config, q: nat, m: nat): Option<Entry>
    requires Configured(cfg)
  {
    if m > 0 then Some(Entry("", m, At(Period(cfg, q) + cfg.lockout)))
    else if q > 0 then Some(Entry("", cfg.maxAttempts, At(Period(cfg, q))))
    else None
  }

  ghost predicate PatientState(cfg: Config, q: nat, m: nat, r: Run)
    requires Configured(cfg)
  {
    && r.current == Some(0) && r.slots.lock.None? && r.slots.code == Some(Stored(0, "right", cfg.ttl))
    && r.slots.att == PatientAtt(cfg, q, m)
    && Guesses(r.notes, 0) == Times(q, cfg.maxAttempts) + m
  }

  lemma PatientStep(cfg: Config, q: nat, m: nat, before: Run, n: nat, e: Event)
    requires Configured(cfg) && m < cfg.maxAttempts && Period(cfg, q) < cfg.ttl
    requires PatientState(cfg, q, m, before) && e == Verify(Period(cfg, q), Period(cfg, q), Period(cfg, q), "wrong")
    ensures PatientState(cfg, q, m + 1, Next(cfg, before, n, e))
  {
    GuessesSnoc(before.notes, Compared(0, false), 0);
    assert IsLive(before.slots.code, e.read);
    assert Attempt(cfg, before.slots, e.counted) == PatientAtt(cfg, q, m + 1).value;
  }

  lemma PatientStart(cfg: Config)
    requires Configured(cfg)
    ensures PatientState(cfg, 0, 0, Exec(cfg, Patient(cfg, 0, 0)))
  {
    var events := Patient(cfg, 0, 0);
    assert events == [Issue(0, 0, 0, true, true, "right")] && events[..0] == [];
    GuessesSnoc([], Nothing, 0);
  }

  lemma PatientSnoc(cfg: Config, q: nat, m: nat)
    requires Configured(cfg) && m < cfg.maxAttempts && Period(cfg, q) < cfg.ttl
    requires PatientState(cfg, q, m, Exec(cfg, Patient(cfg, q, m)))
    ensures PatientState(cfg, q, m + 1, Exec(cfg, Patient(cfg, q, m + 1)))
  {
    var before, events, t := Patient(cfg, q, m), Patient(cfg, q, m + 1), Period(cfg, q);
    assert events == before + [Verify(t, t, t, "wrong")] && events[..|events| - 1] == before;
    PatientStep(cfg, q, m, Exec(cfg, before), |before|, Verify(t, t, t, "wrong"));
  }

  lemma PatientTurns(cfg: Config, q: nat)
    requires Configured(cfg) && PatientState(cfg, q, cfg.maxAttempts, Exec(cfg, Patient(cfg, q, cfg.maxAttempts)))
    ensures PatientState(cfg, q + 1, 0, Exec(cfg, Patient(cfg, q + 1, 0)))
  {
    assert Patient(cfg, q + 1, 0) == Patient(cfg, q, cfg.maxAttempts);
  }

  lemma {:induction false} PatientGuesses(cfg: Config, q: nat, m: nat)
    requires Configured(cfg) && m <= cfg.maxAttempts && Period(cfg, if q > 0 && m == 0 then q - 1 else q) < cfg.ttl
    ensures PatientState(cfg, q, m, Exec(cfg, Patient(cfg, q, m)))
    decreases q, m
  {
    if m > 0 {
      if q > 0 {
        TimesMonotone(q, q - 1, cfg.lockout);
      }
      PatientGuesses(cfg, q, m - 1);
      PatientSnoc(cfg, q, m - 1);
    } else if q > 0 {
      PatientGuesses(cfg, q - 1, cfg.maxAttempts);
      PatientTurns(cfg, q - 1);
    } else {
      PatientStart(cfg);
    }
  }

  /** The bound is tight for every configuration: with a lifetime of several lockout
      periods a code really is compared that often. */
  lemma GuessBoundReached(cfg: Config)
    requires Configured(cfg)
    ensures exists events, j :: Sequential(events)
              && Guesses(Exec(cfg, events).notes, j) == cfg.maxAttempts * Ceiling(cfg.ttl, cfg.lockout)
  {
    var k := Ceiling(cfg.ttl, cfg.lockout);
    AtLeastOne(cfg.ttl, cfg.lockout);
    TimesIsProduct(k - 1, cfg.lockout);
    TimesIsProduct(k, cfg.maxAttempts);
    PatientSequential(cfg, k - 1, cfg.maxAttempts);
    PatientGuesses(cfg, k - 1, cfg.maxAttempts);
    assert Sequential(Patient(cfg, k - 1, cfg.maxAttempts));
  }

  lemma AtLeastOne(a: int, b: int)
    requires a > 0 && b > 0
    ensures Ceiling(a, b) >= 1 && (Ceiling(a, b) - 1) * b < a
  {
    DivisionMonotone(b, a + b - 1, b);
    assert b * ((a + b - 1) / b) <= a + b - 1;
    assert (Ceiling(a, b) - 1) * b == b * Ceiling(a, b) - b;
  }
}
