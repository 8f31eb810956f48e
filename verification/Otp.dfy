/**
 The service itself, over the in-process cache. Every call is a path of the protocol on the
 bounded cache; while there is room, it takes the step of its destination. Hashing, trimming
 and normalization are functions it is given; entropy and delivery outcomes are inputs of a
 call.
 */
module Otp {
  import opened Options
  import opened TtlMap
  import opened OtpSteps
  import opened OtpProgram
  import Bounded = OtpBounded
  import Memory

  function SlotsOf(store: Store, id: string): Slots
  {
    Slots(Lookup(store, LockKey(id)), Lookup(store, CooldownKey(id)),
          Lookup(store, CodeKey(id)), Lookup(store, AttKey(id)))
  }

  /** Nothing but the four entries of a destination changed. */
  ghost predicate OnlyTouches(before: Store, after: Store, id: string)
  {
    forall k :: !OwnKey(id, k) ==> Lookup(after, k) == Lookup(before, k)
  }

  lemma PutSlots(s: Store, id: string, e: Entry)
    ensures SlotsOf(s[LockKey(id) := e], id) == SlotsOf(s, id).(lock := Some(e))
    ensures SlotsOf(s[CooldownKey(id) := e], id) == SlotsOf(s, id).(cooldown := Some(e))
    ensures SlotsOf(s[CodeKey(id) := e], id) == SlotsOf(s, id).(code := Some(e))
    ensures SlotsOf(s[AttKey(id) := e], id) == SlotsOf(s, id).(att := Some(e))
  {
    KeysApart(id, id);
  }

  lemma DropSlots(s: Store, id: string)
    ensures SlotsOf(s - {CooldownKey(id)}, id) == SlotsOf(s, id).(cooldown := None)
    ensures SlotsOf(s - {CodeKey(id)}, id) == SlotsOf(s, id).(code := None)
    ensures SlotsOf(s - {AttKey(id)}, id) == SlotsOf(s, id).(att := None)
  {
    KeysApart(id, id);
  }

  lemma CountedIsAttempt(cfg: Config, s: Store, id: string, now: int)
    ensures Counted(View(s, now), AttKey(id), now, cfg.lockout) == Attempt(cfg, SlotsOf(s, id), now)
  {
  }

  /** An operation on an entry of the destination touches nothing else. */
  lemma PlainTouches(s: Store, id: string, op: Op, now: int)
    requires OwnKey(id, op.key)
    ensures OnlyTouches(s, Plain(s, op, now), id)
  {
  }

  /** The entries and the answer of a call. */
  function Outcome(cfg: Config, s: Slots, e: Event): (Slots, Result)
  {
    if e.Issue? then AfterIssue(cfg, s, e) else (AfterVerify(cfg, s, e).0, AfterVerify(cfg, s, e).1)
  }

  /** A verify that finds no lock, in the order in which it works. */
  lemma VerifyCases(cfg: Config, s: Slots, e: Event)
    requires e.Verify? && !IsLive(s.lock, e.locked)
    ensures var att := Attempt(cfg, s, e.counted);
            var hit := IsLive(s.code, e.read) && s.code.value.value == e.mac;
            Outcome(cfg, s, e) ==
            if att.n > cfg.maxAttempts
            then (s.(att := Some(att), lock := Some(Stored(e.read, "\U{1}", cfg.lockout)), code := None), ErrLocked)
            else if hit then (s.(code := None, att := None), Ok) else (s.(att := Some(att)), ErrInvalid)
  {
  }

  /** A call of the service on one destination. */
  datatype Call = Call(id: string, event: Event)

  /** What a call does to the cache: what can be observed afterwards is what the step of its
      destination leaves in an unbounded store, and nothing else is touched. */
  ghost predicate ServedBy(cfg: Config, before: Store, c: Call, r: Result, plain: Store, after: Store)
  {
    && OnlyTouches(before, plain, c.id) && (SlotsOf(plain, c.id), r) == Outcome(cfg, SlotsOf(before, c.id), c.event)
    && View(after, Last(c.event)) == View(plain, Last(c.event))
  }

  // ---------------------------------------------------------------- a call under way

  /** The cache operations of a call so far and the worlds between them, what the cache held
      before the call, what an unbounded store would hold now, and how many more entries are
      sure to fit. */
  datatype Trace = Trace(ops: seq<Timed>, worlds: seq<Bounded.World>, base: Store, store: Store, room: int)

  /** The call stands at p: its operations are steps of the bounded protocol, the last world is
      what can be observed, and while there is room the unbounded store looks the same. */
  ghost predicate Stands(cfg: Config, max: nat, id: string, t: Trace, entries: Store, now: int, p: Phase)
  {
    && Bounded.Path(cfg, max, id, t.ops, t.worlds)
    && var w := t.worlds[|t.ops|];
       && w.phase == p && w.now == now && w.v == View(entries, now)
       && (t.room >= 0 ==> |w.v| + t.room <= max && w.v == View(t.store, now))
       && OnlyTouches(t.base, t.store, id)
  }

  ghost predicate Continues(t: Trace, t': Trace)
  {
    t.worlds != [] && t'.worlds != [] && t'.worlds[0] == t.worlds[0] && t'.base == t.base
  }

  lemma Begin(cfg: Config, max: nat, id: string, w: Bounded.World, entries: Store) returns (t: Trace)
    requires w.phase == Idle && w.v == View(entries, w.now) && |entries| <= max
    ensures Stands(cfg, max, id, t, entries, w.now, Idle)
    ensures t.worlds[0] == w && t.base == t.store == entries && t.room == max - |w.v|
  {
    t := Trace([], [w], entries, entries, max - |w.v|);
  }

  /** The next world when the call makes an operation. */
  lemma NextWorld(cfg: Config, max: nat, id: string, w: Bounded.World, op: Op, now: int, v': Store, p': Phase)
    returns (w': Bounded.World)
    requires w.now <= now && OwnKey(id, op.key) && Effect(max, View(w.v, now), op, now, v')
    requires Follows(cfg, id, w.phase, Bounded.Answer(View(w.v, now), op, now), p')
    ensures Bounded.Step(cfg, max, id, w, Timed(op, now), w')
    ensures w'.phase == p' && w'.now == now && w'.v == v'
  {
    var store := w.phase == Claimed && op.Set?;
    w' := Bounded.World(v', now, p', if store then now else w.issued,
                        if store then 0
                        else if w.phase == Comparing && CodeKey(id) in View(w.v, now) then w.guesses + 1
                        else w.guesses);
  }

  lemma PathSnoc(cfg: Config, max: nat, id: string, ops: seq<Timed>, worlds: seq<Bounded.World>, e: Timed,
                 w: Bounded.World)
    requires Bounded.Path(cfg, max, id, ops, worlds) && Bounded.Step(cfg, max, id, worlds[|ops|], e, w)
    ensures Bounded.Path(cfg, max, id, ops + [e], worlds + [w])
  {
  }

  /** An operation of the call on the cache takes it from p to p'. While there is room, its
      answer is that of the unbounded store. */
  lemma Advance(cfg: Config, max: nat, id: string, t: Trace, before: Store, at: int, p: Phase,
                op: Op, now: int, after: Store, p': Phase) returns (t': Trace)
    requires Stands(cfg, max, id, t, before, at, p) && at <= now && OwnKey(id, op.key)
    requires Effect(max, View(before, now), op, now, View(after, now))
    requires Follows(cfg, id, p, Bounded.Answer(View(before, now), op, now), p')
    ensures Stands(cfg, max, id, t', after, now, p') && Continues(t, t')
    ensures t'.store == Plain(t.store, op, now) && t'.room == t.room - Adds(op)
    ensures t.room >= 0 ==> View(before, now) == View(t.store, now)
  {
    PlainTouches(t.store, id, op, now);
    var w := t.worlds[|t.ops|];
    ViewLater(before, at, now);
    var w' := NextWorld(cfg, max, id, w, op, now, View(after, now), p');
    PathSnoc(cfg, max, id, t.ops, t.worlds, Timed(op, now), w');
    t' := Trace(t.ops + [Timed(op, now)], t.worlds + [w'], t.base, Plain(t.store, op, now), t.room - Adds(op));
    if t.room >= 0 {
      ViewLater(t.store, at, now);
      ViewSize(w.v, now);
      if t'.room >= 0 {
        RoomIsPlain(max, t.store, op, now, View(after, now));
      }
    }
  }

  /** While there is room, the unbounded store looks the same later on. */
  lemma LooksSame(cfg: Config, max: nat, id: string, t: Trace, entries: Store, now: int, p: Phase, later: int)
    requires Stands(cfg, max, id, t, entries, now, p) && t.room >= 0 && now <= later
    ensures View(entries, later) == View(t.store, later) && OnlyTouches(t.base, t.store, id)
  {
    ViewLater(entries, now, later);
    ViewLater(t.store, now, later);
  }

  class Service {
    const cfg: Config
    const cache: Memory.Memory
    const normalize: string -> string
    const trim: string -> string
    const idOf: (string, string) -> string
    const macOf: (string, string) -> string

    constructor (cfg: Config, cache: Memory.Memory, normalize: string -> string, trim: string -> string,
                 idOf: (string, string) -> string, macOf: (string, string) -> string)
      ensures this.cfg == cfg && this.cache == cache && this.normalize == normalize && this.trim == trim
      ensures this.idOf == idOf && this.macOf == macOf
    {
      this.cfg, this.cache, this.normalize, this.trim := cfg, cache, normalize, trim;
      this.idOf, this.macOf := idOf, macOf;
    }

    /** The call stands at p, by the entries of the cache. */
    ghost predicate At(id: string, t: Trace, now: int, p: Phase)
      reads cache
    {
      cache.Valid() && Stands(cfg, cache.max, id, t, cache.entries, now, p)
    }

    /** The call is over: it was a path of the bounded protocol from world w, from Idle to Idle. */
    ghost predicate Ended(id: string, w: Bounded.World, t: Trace, last: int)
      reads cache
    {
      t.worlds != [] && t.worlds[0] == w && exists end :: end <= last && At(id, t, end, Idle)
    }

    method Locked(id: string, now: int, ghost t: Trace, ghost at: int, ghost next: Phase)
      returns (r: bool, ghost t': Trace)
      requires At(id, t, at, Idle) && at <= now && (next == Claiming || next == Counting)
      modifies cache`entries
      ensures At(id, t', now, if r then Idle else next)
      ensures Continues(t, t') && t'.store == t.store && t'.room == t.room
      ensures t.room >= 0 ==> r == IsLive(SlotsOf(t.store, id).lock, now)
    {
      ghost var before := cache.entries;
      var v, ok := cache.Get(LockKey(id), now);
      t' := Advance(cfg, cache.max, id, t, before, at, Idle, Op.Get(LockKey(id)), now, cache.entries,
                    if ok then Idle else next);
      return ok, t';
    }

    method Claim(id: string, now: int, ghost t: Trace, ghost at: int) returns (ok: bool, ghost t': Trace)
      requires At(id, t, at, Claiming) && at <= now
      modifies cache`entries
      ensures At(id, t', now, if ok then Claimed else Idle)
      ensures Continues(t, t') && t'.room == t.room - 1
      ensures var s := SlotsOf(t.store, id);
              && (t.room >= 0 ==> ok == !IsLive(s.cooldown, now))
              && SlotsOf(t'.store, id) == if IsLive(s.cooldown, now) then s
                                          else s.(cooldown := Some(Stored(now, "\U{1}", cfg.cooldown)))
    {
      ghost var before := cache.entries;
      ok := cache.SetNX(CooldownKey(id), "\U{1}", cfg.cooldown, now);
      t' := Advance(cfg, cache.max, id, t, before, at, Claiming, Op.SetNX(CooldownKey(id), "\U{1}", cfg.cooldown), now,
                    cache.entries, if ok then Claimed else Idle);
      PutSlots(t.store, id, Stored(now, "\U{1}", cfg.cooldown));
    }

    method Unclaim(id: string, now: int, ghost t: Trace, ghost at: int, ghost p: Phase) returns (ghost t': Trace)
      requires At(id, t, at, p) && at <= now && (p == Claimed || p == Unclaiming)
      modifies cache`entries
      ensures At(id, t', now, Idle)
      ensures Continues(t, t') && t'.room == t.room
      ensures SlotsOf(t'.store, id) == SlotsOf(t.store, id).(cooldown := None)
    {
      ghost var before := cache.entries;
      cache.Delete(CooldownKey(id), now);
      t' := Advance(cfg, cache.max, id, t, before, at, p, Op.Delete(CooldownKey(id)), now, cache.entries, Idle);
      DropSlots(t.store, id);
    }

    method DropCode(id: string, now: int, ghost t: Trace, ghost at: int, ghost p: Phase, ghost next: Phase)
      returns (ghost t': Trace)
      requires At(id, t, at, p) && at <= now
      requires || (p, next) == (Unsending, Unclaiming)
               || (p, next) == (Discarding, Idle)
               || (p, next) == (Consuming, Forgetting)
      modifies cache`entries
      ensures At(id, t', now, next)
      ensures Continues(t, t') && t'.room == t.room
      ensures SlotsOf(t'.store, id) == SlotsOf(t.store, id).(code := None)
    {
      ghost var before := cache.entries;
      cache.Delete(CodeKey(id), now);
      t' := Advance(cfg, cache.max, id, t, before, at, p, Op.Delete(CodeKey(id)), now, cache.entries, next);
      DropSlots(t.store, id);
    }

    method DropAttempts(id: string, now: int, ghost t: Trace, ghost at: int, ghost p: Phase, ghost next: Phase)
      returns (ghost t': Trace)
      requires At(id, t, at, p) && at <= now
      requires (p, next) == (Resetting, Idle) || (p, next) == (Resetting, Unsending) || (p, next) == (Forgetting, Idle)
      modifies cache`entries
      ensures At(id, t', now, next)
      ensures Continues(t, t') && t'.room == t.room
      ensures SlotsOf(t'.store, id) == SlotsOf(t.store, id).(att := None)
    {
      ghost var before := cache.entries;
      cache.Delete(AttKey(id), now);
      t' := Advance(cfg, cache.max, id, t, before, at, p, Op.Delete(AttKey(id)), now, cache.entries, next);
      DropSlots(t.store, id);
    }

    method StoreCode(id: string, mac: string, now: int, ghost t: Trace, ghost at: int) returns (ghost t': Trace)
      requires At(id, t, at, Claimed) && at <= now
      modifies cache`entries
      ensures At(id, t', now, Resetting)
      ensures Continues(t, t') && t'.room == t.room - 1
      ensures SlotsOf(t'.store, id) == SlotsOf(t.store, id).(code := Some(Stored(now, mac, cfg.ttl)))
    {
      ghost var before := cache.entries;
      cache.Set(CodeKey(id), mac, cfg.ttl, now);
      t' := Advance(cfg, cache.max, id, t, before, at, Claimed, Op.Set(CodeKey(id), mac, cfg.ttl), now, cache.entries,
                    Resetting);
      PutSlots(t.store, id, Stored(now, mac, cfg.ttl));
    }

    /** Stores the code, resets the attempts and sends; a failed send takes back the code and the
        cooldown. */
    method StoreAndSend(id: string, mac: string, sent: bool, now: int, ghost t: Trace, ghost at: int)
      returns (r: Result, ghost t': Trace)
      requires At(id, t, at, Claimed) && at <= now
      modifies cache`entries
      ensures At(id, t', now, Idle) && r == (if sent then Ok else ErrSend)
      ensures Continues(t, t') && t'.room == t.room - 1
      ensures var s := SlotsOf(t.store, id);
              SlotsOf(t'.store, id) == if sent then s.(code := Some(Stored(now, mac, cfg.ttl)), att := None)
                                       else s.(code := None, att := None, cooldown := None)
    {
      t' := StoreCode(id, mac, now, t, at);
      t' := DropAttempts(id, now, t', now, Resetting, if sent then Idle else Unsending);
      if !sent {
        t' := DropCode(id, now, t', now, Unsending, Unclaiming);
        t' := Unclaim(id, now, t', now, Unclaiming);
        return ErrSend, t';
      }
      return Ok, t';
    }

    /** Compares a guess with the pending code and consumes the code on a match. */
    method Compare(id: string, code: string, now: int, ghost t: Trace, ghost at: int)
      returns (r: Result, ghost t': Trace)
      requires At(id, t, at, Comparing) && at <= now
      modifies cache`entries
      ensures At(id, t', now, Idle)
      ensures Continues(t, t') && t'.room == t.room
      ensures t.room >= 0 ==>
                var s := SlotsOf(t.store, id);
                var hit := IsLive(s.code, now) && s.code.value.value == macOf(id, trim(code));
                && r == (if hit then Ok else ErrInvalid)
                && SlotsOf(t'.store, id) == (if hit then s.(code := None, att := None) else s)
               
    {
      ghost var before := cache.entries;
      var want, ok := cache.Get(CodeKey(id), now);
      if !ok {
        want := macOf(id, "absent");
      }
      var got := macOf(id, trim(code));
      var same := got == want;
      t' := Advance(cfg, cache.max, id, t, before, at, Comparing, Op.Get(CodeKey(id)), now, cache.entries,
                    if ok && same then Consuming else Idle);
      if !ok || !same {
        return ErrInvalid, t';
      }
      t' := DropCode(id, now, t', now, Consuming, Forgetting);
      t' := DropAttempts(id, now, t', now, Forgetting, Idle);
      return Ok, t';
    }

    method Count(id: string, now: int, ghost t: Trace, ghost at: int) returns (n: int, ghost t': Trace)
      requires At(id, t, at, Counting) && at <= now
      modifies cache`entries
      ensures At(id, t', now, if n > cfg.maxAttempts then Locking else Comparing)
      ensures Continues(t, t') && t'.room == t.room - 1
      ensures var s := SlotsOf(t.store, id);
              && (t.room >= 0 ==> n == Attempt(cfg, s, now).n)
              && SlotsOf(t'.store, id) == s.(att := Some(Attempt(cfg, s, now)))
    {
      ghost var before := cache.entries;
      CountedIsAttempt(cfg, t.store, id, now);
      n := cache.Incr(AttKey(id), cfg.lockout, now);
      t' := Advance(cfg, cache.max, id, t, before, at, Counting, Op.Incr(AttKey(id), cfg.lockout), now, cache.entries,
                    if n > cfg.maxAttempts then Locking else Comparing);
      PutSlots(t.store, id, Attempt(cfg, SlotsOf(t.store, id), now));
    }

    method LockOut(id: string, now: int, ghost t: Trace, ghost at: int) returns (ghost t': Trace)
      requires At(id, t, at, Locking) && at <= now
      modifies cache`entries
      ensures At(id, t', now, Idle)
      ensures Continues(t, t') && t'.room == t.room - 1
      ensures SlotsOf(t'.store, id)
              == SlotsOf(t.store, id).(lock := Some(Stored(now, "\U{1}", cfg.lockout)), code := None)
    {
      ghost var before := cache.entries;
      cache.Set(LockKey(id), "\U{1}", cfg.lockout, now);
      t' := Advance(cfg, cache.max, id, t, before, at, Locking, Op.Set(LockKey(id), "\U{1}", cfg.lockout), now,
                    cache.entries, Discarding);
      PutSlots(t.store, id, Stored(now, "\U{1}", cfg.lockout));
      t' := DropCode(id, now, t', now, Discarding, Idle);
    }

    /** Issues a code: `code` is what entropy yields, if it does. A failed send releases the
        cooldown. Two new entries at most are stored. */
    method Issue(purpose: string, dest: string, code: Option<string>, sent: bool,
                 locked: int, claimed: int, stored: int, ghost w: Bounded.World)
      returns (r: Result, ghost t: Trace)
      requires cache.Valid() && w.phase == Idle && w.v == View(cache.entries, w.now)
      requires w.now <= locked <= claimed <= stored
      modifies cache`entries
      ensures cache.Valid()
      ensures normalize(dest) == "" ==> r == ErrDestination && cache.entries == old(cache.entries)
      ensures normalize(dest) != "" ==>
                var id := idOf(purpose, normalize(dest));
                var e := OtpSteps.Issue(locked, claimed, stored, code.Some?, sent,
                                        if code.Some? then macOf(id, code.value) else "");
                && Ended(id, w, t, stored)
                && (|w.v| + 2 <= cache.max ==>
                      ServedBy(cfg, old(cache.entries), Call(id, e), r, t.store, cache.entries))
    {
      var to := normalize(dest);
      if to == "" {
        return ErrDestination, Trace([], [w], map[], map[], 0);
      }
      var id := idOf(purpose, to);
      ghost var end;
      t := Begin(cfg, cache.max, id, w, cache.entries);
      r, t, end := IssueTo(id, code, sent, locked, claimed, stored, t, w.now);
      if t.room >= 0 {
        LooksSame(cfg, cache.max, id, t, cache.entries, end, Idle, stored);
      }
    }

    method IssueTo(id: string, code: Option<string>, sent: bool, locked: int, claimed: int, stored: int,
                   ghost t: Trace, ghost at: int)
      returns (r: Result, ghost t': Trace, ghost end: int)
      requires At(id, t, at, Idle) && at <= locked <= claimed <= stored
      modifies cache`entries
      ensures At(id, t', end, Idle) && end <= stored && Continues(t, t')
      ensures var e := OtpSteps.Issue(locked, claimed, stored, code.Some?, sent,
                                      if code.Some? then macOf(id, code.value) else "");
              t.room >= 2 ==> t'.room >= 0 && (SlotsOf(t'.store, id), r) == Outcome(cfg, SlotsOf(t.store, id), e)
    {
      var no;
      no, t' := Locked(id, locked, t, at, Claiming);
      if no {
        return ErrLocked, t', locked;
      }
      r, t', end := IssueUnlocked(id, code, sent, claimed, stored, t', locked);
    }

    /** The rest of an issue once no lock was found. */
    method IssueUnlocked(id: string, code: Option<string>, sent: bool, claimed: int, stored: int,
                         ghost t: Trace, ghost locked: int)
      returns (r: Result, ghost t': Trace, ghost end: int)
      requires At(id, t, locked, Claiming) && locked <= claimed <= stored
      modifies cache`entries
      ensures At(id, t', end, Idle) && end <= stored && Continues(t, t')
      ensures var s := SlotsOf(t.store, id);
              var e := OtpSteps.Issue(locked, claimed, stored, code.Some?, sent,
                                      if code.Some? then macOf(id, code.value) else "");
              t.room >= 2 ==>
                t'.room >= 0 && (!IsLive(s.lock, locked) ==> (SlotsOf(t'.store, id), r) == AfterIssue(cfg, s, e))
    {
      var claim;
      claim, t' := Claim(id, claimed, t, locked);
      if !claim {
        return ErrCooldown, t', claimed;
      }
      if code.None? {
        t' := Unclaim(id, claimed, t', claimed, Claimed);
        return ErrEntropy, t', claimed;
      }
      r, t' := StoreAndSend(id, macOf(id, code.value), sent, stored, t', claimed);
      end := stored;
    }

    /** Checks a guess and consumes the code on success. */
    method Verify(purpose: string, dest: string, code: string, locked: int, counted: int, read: int,
                  ghost w: Bounded.World)
      returns (r: Result, ghost t: Trace)
      requires cache.Valid() && w.phase == Idle && w.v == View(cache.entries, w.now)
      requires w.now <= locked <= counted <= read
      modifies cache`entries
      ensures cache.Valid()
      ensures var id := idOf(purpose, normalize(dest));
              var e := OtpSteps.Verify(locked, counted, read, macOf(id, trim(code)));
              && Ended(id, w, t, read)
              && (|w.v| + 2 <= cache.max ==> ServedBy(cfg, old(cache.entries), Call(id, e), r, t.store, cache.entries))
    {
      var id := idOf(purpose, normalize(dest));
      ghost var end;
      t := Begin(cfg, cache.max, id, w, cache.entries);
      r, t, end := VerifyFor(id, code, locked, counted, read, t, w.now);
      if t.room >= 0 {
        LooksSame(cfg, cache.max, id, t, cache.entries, end, Idle, read);
      }
    }

    method VerifyFor(id: string, code: string, locked: int, counted: int, read: int, ghost t: Trace, ghost at: int)
      returns (r: Result, ghost t': Trace, ghost end: int)
      requires At(id, t, at, Idle) && at <= locked <= counted <= read
      modifies cache`entries
      ensures At(id, t', end, Idle) && end <= read && Continues(t, t')
      ensures var e := OtpSteps.Verify(locked, counted, read, macOf(id, trim(code)));
              t.room >= 2 ==> t'.room >= 0 && (SlotsOf(t'.store, id), r) == Outcome(cfg, SlotsOf(t.store, id), e)
    {
      var no;
      no, t' := Locked(id, locked, t, at, Counting);
      if no {
        return ErrLocked, t', locked;
      }
      r, t' := VerifyUnlocked(id, code, counted, read, t', locked);
      end := read;
    }

    /** The rest of a verify once no lock was found. */
    method VerifyUnlocked(id: string, code: string, counted: int, read: int, ghost t: Trace, ghost locked: int)
      returns (r: Result, ghost t': Trace)
      requires At(id, t, locked, Counting) && locked <= counted <= read
      modifies cache`entries
      ensures At(id, t', read, Idle) && Continues(t, t')
      ensures var s := SlotsOf(t.store, id);
              var e := OtpSteps.Verify(locked, counted, read, macOf(id, trim(code)));
              t.room >= 2 ==>
                t'.room >= 0 && (!IsLive(s.lock, locked) ==> (SlotsOf(t'.store, id), r) == Outcome(cfg, s, e))
    {
      ghost var s, e := SlotsOf(t.store, id), OtpSteps.Verify(locked, counted, read, macOf(id, trim(code)));
      if !IsLive(s.lock, locked) {
        VerifyCases(cfg, s, e);
      }
      var n;
      n, t' := Count(id, counted, t, locked);
      if n > cfg.maxAttempts {
        t' := LockOut(id, read, t', counted);
        return ErrLocked, t';
      }
      r, t' := Compare(id, code, read, t', counted);
    }
  }

  /** Calls for one destination do not disturb another. */
  lemma DestinationsIndependent(before: Store, after: Store, id: string, other: string)
    requires OnlyTouches(before, after, id) && id != other
    ensures SlotsOf(after, other) == SlotsOf(before, other)
  {
    KeysApart(id, other);
    KeysApart(other, id);
  }

  // ---------------------------------------------------------------- several destinations

  /** The entries that are still live. */
  function LiveSlots(s: Slots, now: int): Slots
  {
    Slots(if IsLive(s.lock, now) then s.lock else None, if IsLive(s.cooldown, now) then s.cooldown else None,
          if IsLive(s.code, now) then s.code else None, if IsLive(s.att, now) then s.att else None)
  }

  lemma LiveIssue(cfg: Config, s: Slots, s': Slots, e: Event, now: int)
    requires e.Issue? && LiveSlots(s, now) == LiveSlots(s', now) && now <= First(e) && InOrder(e)
    ensures LiveSlots(AfterIssue(cfg, s, e).0, Last(e)) == LiveSlots(AfterIssue(cfg, s', e).0, Last(e))
    ensures AfterIssue(cfg, s, e).1 == AfterIssue(cfg, s', e).1
  {
    LiveLater(s, s', now, e.locked);
    LiveLater(s, s', now, e.claimed);
    LiveLater(s, s', now, e.stored);
  }

  lemma LiveVerify(cfg: Config, s: Slots, s': Slots, e: Event, now: int)
    requires e.Verify? && LiveSlots(s, now) == LiveSlots(s', now) && now <= First(e) && InOrder(e)
    ensures LiveSlots(Outcome(cfg, s, e).0, Last(e)) == LiveSlots(Outcome(cfg, s', e).0, Last(e))
    ensures Outcome(cfg, s, e).1 == Outcome(cfg, s', e).1
  {
    LiveLater(s, s', now, e.locked);
    LiveLater(s, s', now, e.read);
    if !IsLive(s.lock, e.locked) {
      SameAttempt(cfg, s, s', now, e.counted);
      VerifyCases(cfg, s, e);
      VerifyCases(cfg, s', e);
    }
  }

  lemma SameAttempt(cfg: Config, s: Slots, s': Slots, now: int, counted: int)
    requires LiveSlots(s, now) == LiveSlots(s', now) && now <= counted
    ensures Attempt(cfg, s, counted) == Attempt(cfg, s', counted)
  {
    LiveLater(s, s', now, counted);
  }

  /** A step depends on the live entries only. */
  lemma LiveOutcome(cfg: Config, s: Slots, s': Slots, e: Event, now: int)
    requires LiveSlots(s, now) == LiveSlots(s', now) && now <= First(e) && InOrder(e)
    ensures LiveSlots(Outcome(cfg, s, e).0, Last(e)) == LiveSlots(Outcome(cfg, s', e).0, Last(e))
    ensures Outcome(cfg, s, e).1 == Outcome(cfg, s', e).1
  {
    if e.Issue? {
      LiveIssue(cfg, s, s', e, now);
    } else {
      LiveVerify(cfg, s, s', e, now);
    }
  }

  lemma LiveLater(s: Slots, s': Slots, now: int, later: int)
    requires LiveSlots(s, now) == LiveSlots(s', now) && now <= later
    ensures LiveSlots(s, later) == LiveSlots(s', later)
  {
  }

  lemma ViewSlots(m: Store, id: string, now: int)
    ensures SlotsOf(View(m, now), id) == LiveSlots(SlotsOf(m, id), now)
  {
  }

  /** Some answer and some unbounded store fit the call. */
  ghost predicate Serves(cfg: Config, before: Store, c: Call, after: Store)
  {
    exists r: Result, plain: Store :: ServedBy(cfg, before, c, r, plain, after)
  }

  /** A run of calls, one after the other on a clock that never goes back, and what the cache
      holds between them. */
  ghost predicate IsRun(cfg: Config, calls: seq<Call>, stores: seq<Store>)
  {
    && |stores| == |calls| + 1 && stores[0] == map[]
    && (forall i :: 0 <= i < |calls| ==> Serves(cfg, stores[i], calls[i], stores[i + 1]) && InOrder(calls[i].event))
    && forall i :: 0 < i < |calls| ==> Last(calls[i - 1].event) <= First(calls[i].event)
  }

  /** The events of one destination. */
  function Own(calls: seq<Call>, id: string): seq<Event>
  {
    if calls == [] then []
    else
      var n := |calls| - 1;
      Own(calls[..n], id) + (if calls[n].id == id then [calls[n].event] else [])
  }

  /** One call: its own destination takes the step, every other one only sees time pass. */
  lemma ServedSlots(cfg: Config, before: Store, c: Call, after: Store, id: string)
    requires Serves(cfg, before, c, after)
    ensures var s := SlotsOf(before, id);
            LiveSlots(SlotsOf(after, id), Last(c.event))
            == LiveSlots(if c.id == id then Outcome(cfg, s, c.event).0 else s, Last(c.event))
  {
    var r: Result, plain: Store :| ServedBy(cfg, before, c, r, plain, after);
    ViewSlots(after, id, Last(c.event));
    ViewSlots(plain, id, Last(c.event));
    if c.id != id {
      DestinationsIndependent(before, plain, c.id, id);
    }
  }

  lemma {:induction false} OwnSlots(cfg: Config, calls: seq<Call>, stores: seq<Store>, id: string, n: nat)
    requires IsRun(cfg, calls, stores) && n <= |calls|
    ensures n == 0 ==> SlotsOf(stores[0], id) == EMPTY
    ensures n > 0 ==>
              var now := Last(calls[n - 1].event);
              LiveSlots(SlotsOf(stores[n], id), now) == LiveSlots(Exec(cfg, Own(calls[..n], id)).slots, now)
  {
    if n > 0 {
      var k := n - 1;
      OwnSlots(cfg, calls, stores, id, k);
      OwnStep(cfg, calls, stores, id, k);
    }
  }

  /** The entries of the destination before call k, at the time it begins. */
  lemma OwnStep(cfg: Config, calls: seq<Call>, stores: seq<Store>, id: string, k: nat)
    requires IsRun(cfg, calls, stores) && k < |calls|
    requires k == 0 ==> SlotsOf(stores[0], id) == EMPTY
    requires k > 0 ==>
               var now := Last(calls[k - 1].event);
               LiveSlots(SlotsOf(stores[k], id), now) == LiveSlots(Exec(cfg, Own(calls[..k], id)).slots, now)
    ensures var now := Last(calls[k].event);
            LiveSlots(SlotsOf(stores[k + 1], id), now) == LiveSlots(Exec(cfg, Own(calls[..k + 1], id)).slots, now)
  {
    var c, s, run := calls[k], SlotsOf(stores[k], id), Exec(cfg, Own(calls[..k], id)).slots;
    assert Serves(cfg, stores[k], c, stores[k + 1]) && InOrder(c.event);
    ServedSlots(cfg, stores[k], c, stores[k + 1], id);
    OwnSnoc(cfg, calls, id, k);
    var now := if k > 0 then Last(calls[k - 1].event) else First(c.event);
    assert now <= First(c.event);
    LiveOutcome(cfg, s, run, c.event, now);
    LiveLater(s, run, now, Last(c.event));
  }

  lemma OwnSnoc(cfg: Config, calls: seq<Call>, id: string, k: nat)
    requires k < |calls|
    ensures var run := Exec(cfg, Own(calls[..k], id)).slots;
            Exec(cfg, Own(calls[..k + 1], id)).slots
            == if calls[k].id == id then Outcome(cfg, run, calls[k].event).0 else run
  {
    assert calls[..k + 1][..k] == calls[..k];
    var events := Own(calls[..k], id);
    if calls[k].id == id {
      assert (events + [calls[k].event])[..|events|] == events;
    } else {
      assert Own(calls[..k + 1], id) == events;
    }
  }

  lemma {:induction false} OwnSequential(cfg: Config, calls: seq<Call>, stores: seq<Store>, id: string, n: nat)
    requires IsRun(cfg, calls, stores) && n <= |calls|
    ensures var events := Own(calls[..n], id);
            && Sequential(events)
            && (events != [] ==> n > 0 && Last(events[|events| - 1]) <= Last(calls[n - 1].event))
  {
    if n > 0 {
      var k := n - 1;
      OwnSequential(cfg, calls, stores, id, k);
      assert calls[..n][..k] == calls[..k];
      assert InOrder(calls[k].event) && (k > 0 ==> Last(calls[k - 1].event) <= First(calls[k].event));
      if calls[k].id != id {
        assert Own(calls[..n], id) == Own(calls[..k], id);
      }
    }
  }

  /** Over any run of calls on any destinations, the live entries of a destination are those that
      its own calls leave, so each of its codes keeps the guess bound and is accepted at most
      once. */
  lemma EveryDestinationBounded(cfg: Config, calls: seq<Call>, stores: seq<Store>, id: string, j: nat)
    requires Configured(cfg) && IsRun(cfg, calls, stores) && calls != []
    ensures var r, now := Exec(cfg, Own(calls, id)), Last(calls[|calls| - 1].event);
            && LiveSlots(SlotsOf(stores[|calls|], id), now) == LiveSlots(r.slots, now)
            && Guesses(r.notes, j) <= cfg.maxAttempts * Ceiling(cfg.ttl, cfg.lockout)
            && Wins(r.notes, j) <= 1
  {
    assert calls[..|calls|] == calls;
    OwnSlots(cfg, calls, stores, id, |calls|);
    OwnSequential(cfg, calls, stores, id, |calls|);
    GuessBound(cfg, Own(calls, id), j);
  }

  // ---------------------------------------------------------------- round trip

  /** Round trip: a delivered code is accepted before it expires, and then exactly the code
      that was sent, provided the keyed hash tells the two apart. */
  lemma IssuedCodeVerifies(cfg: Config, s: Slots, i: Event, v: Event,
                           mac: string -> string, code: string, guess: string)
    requires Configured(cfg) && i.Issue? && v.Verify? && i.mac == mac(code) && v.mac == mac(guess)
    requires mac(guess) == mac(code) ==> guess == code
    requires AfterIssue(cfg, s, i).1 == Ok && InOrder(i) && InOrder(v) && Last(i) <= First(v)
    ensures var s' := AfterIssue(cfg, s, i).0;
            AfterVerify(cfg, s', v).1 == Ok <==> guess == code && v.read < i.stored + cfg.ttl
  {
    var s' := AfterIssue(cfg, s, i).0;
    assert !IsLive(s'.lock, v.locked);
    assert s'.att.None? && s'.code == Some(Stored(i.stored, i.mac, cfg.ttl));
  }

  // ---------------------------------------------------------------- code generation

  type Byte = b: int | 0 <= b < 256

  function Accepted(input: seq<Byte>): seq<Byte>
  {
    if input == [] then []
    else Accepted(input[..|input| - 1]) + (if input[|input| - 1] < 250 then [input[|input| - 1]] else [])
  }

  function Digit(b: Byte): char { ('0' as int + b % 10) as char }

  function Digits(bs: seq<Byte>): (r: string)
    ensures |r| == |bs| && forall i :: 0 <= i < |bs| ==> r[i] == Digit(bs[i])
  {
    seq(|bs|, i requires 0 <= i < |bs| => Digit(bs[i]))
  }

  lemma {:induction false} AcceptedPrefix(input: seq<Byte>, i: nat)
    requires i <= |input|
    ensures Accepted(input[..i]) <= Accepted(input)
    decreases |input|
  {
    if i < |input| {
      var n := |input| - 1;
      AcceptedPrefix(input[..n], i);
      assert input[..n][..i] == input[..i];
    } else {
      assert input[..i] == input;
    }
  }

  /** Rejection sampling: the code is the digits of the first `length` bytes below 250, and
      fails only when the input runs out first. */
  method Generate(length: nat, input: seq<Byte>) returns (code: Option<string>)
    ensures code.Some? <==> |Accepted(input)| >= length
    ensures code.Some? ==> code.value == Digits(Accepted(input)[..length])
  {
    var out, read := "", 0;
    while |out| < length
      invariant 0 <= read <= |input| && |out| <= length
      invariant out == Digits(Accepted(input[..read]))
      decreases |input| - read
    {
      if read == |input| {
        assert input[..read] == input;
        return None;
      }
      assert input[..read + 1][..read] == input[..read];
      if input[read] < 250 {
        out := out + [Digit(input[read])];
      }
      read := read + 1;
    }
    AcceptedPrefix(input, read);
    var done := Accepted(input[..read]);
    assert Accepted(input)[..length] == done;
    return Some(out);
  }

  /** The byte is accepted and gives the digit. */
  predicate Gives(b: Byte, d: int)
    requires 0 <= d < 10
  {
    Accepted([b]) == [b] && Digit(b) == ('0' as int + d) as char
  }

  lemma GivesIff(b: Byte, d: int)
    requires 0 <= d < 10
    ensures Gives(b, d) <==> b < 250 && b % 10 == d
  {
    assert [b][..0] == [] && Accepted([]) == [];
  }

  /** No modulo bias: of the byte values that are accepted, exactly 25 give any one digit. */
  lemma DigitsUniform(d: int)
    requires 0 <= d < 10
    ensures (set b: Byte | 0 <= b < 256 && Gives(b, d)) == set k | 0 <= k < 25 :: 10 * k + d
    ensures |set k | 0 <= k < 25 :: 10 * k + d| == 25
  {
    var lhs, rhs := set b: Byte | 0 <= b < 256 && Gives(b, d), set k | 0 <= k < 25 :: 10 * k + d;
    forall b | b in lhs
      ensures b in rhs
    {
      GivesIff(b, d);
      assert b == 10 * (b / 10) + d;
    }
    forall x | x in rhs
      ensures x in lhs
    {
      var k :| 0 <= k < 25 && x == 10 * k + d;
      GivesIff(x, d);
    }
    Progression(d, 25);
  }

  lemma {:induction false} Progression(d: int, n: nat)
    ensures |set k | 0 <= k < n :: 10 * k + d| == n
  {
    var s := set k | 0 <= k < n :: 10 * k + d;
    if n == 0 {
      assert s == {};
    } else {
      var t := set k | 0 <= k < n - 1 :: 10 * k + d;
      Progression(d, n - 1);
      var last := 10 * (n - 1) + d;
      assert s == t + {last} && last !in t;
    }
  }
}
