/**
 The Shared Signals receiver's replay memory. Handling one token marks its key, runs the
 handlers and, if one fails, forgets the mark so that the token can be delivered again.
 Marking and forgetting are atomic; handlers of different deliveries may overlap.
 */
module Receiver {
  import opened Options
  import Orders

  type Seen = map<string, int>

  datatype Mark = Marked | Replay | Full

  predicate Live(seen: Seen, key: string, now: int) { key in seen && seen[key] > now }

  function LiveOnly(seen: Seen, now: int): (r: Seen)
    ensures forall k :: k in r <==> Live(seen, k, now)
    ensures forall k :: k in r ==> k in seen && r[k] == seen[k]
  {
    map k | k in seen && seen[k] > now :: seen[k]
  }

  /** The memory after marking a key: full memories are swept first, and refuse the key
      when nothing has expired. */
  function MarkSeen(seen: Seen, max: nat, window: int, key: string, now: int): (Seen, Mark)
  {
    if Live(seen, key, now) then (seen, Replay)
    else if |seen| < max then (seen[key := now + window], Marked)
    else
      var live := LiveOnly(seen, now);
      if |live| >= max then (live, Full) else (live[key := now + window], Marked)
  }

  // ---------------------------------------------------------------- the receiver

  datatype Outcome = Handled | Replayed | Refused | HandlerFailed | NotVerified

  class Receiver {
    const max: nat
    const window: int
    var seen: Seen

    ghost predicate Valid()
      reads this
    {
      max > 0 && window > 0 && |seen| <= max
    }

    constructor (max: int, window: int)
      ensures Valid() && seen == map[]
      ensures this.max == if max <= 0 then 100000 else max
      ensures this.window == if window <= 0 then 24 * 3600 * 1_000_000_000 else window
    {
      this.max := if max <= 0 then 100000 else max;
      this.window := if window <= 0 then 24 * 3600 * 1_000_000_000 else window;
      seen := map[];
    }

    method SweepSeen(now: int)
      requires Valid()
      modifies this
      ensures Valid() && seen == LiveOnly(old(seen), now)
    {
      var todo := seen.Keys;
      ghost var before := seen;
      while todo != {}
        invariant todo <= seen.Keys <= before.Keys && |seen| <= max
        invariant forall k :: k in seen ==> seen[k] == before[k]
        invariant forall k :: k in before ==> (k in seen <==> k in todo || before[k] > now)
        decreases |todo|
      {
        var k :| k in todo;
        todo := todo - {k};
        if seen[k] <= now {
          ghost var keys := seen.Keys;
          seen := seen - {k};
          assert seen.Keys == keys - {k};
        }
      }
    }

    method MarkKey(key: string, now: int) returns (r: Mark)
      requires Valid()
      modifies this
      ensures Valid()
      ensures (seen, r) == MarkSeen(old(seen), max, window, key, now)
    {
      if key in seen && seen[key] > now {
        return Replay;
      }
      if |seen| >= max {
        SweepSeen(now);
        if |seen| >= max {
          return Full;
        }
      }
      ghost var keys := seen.Keys;
      seen := seen[key := now + window];
      assert seen.Keys == keys + {key};
      return Marked;
    }

    method Forget(key: string)
      requires Valid()
      modifies this
      ensures Valid() && seen == old(seen) - {key}
    {
      ghost var before := seen;
      seen := seen - {key};
      assert seen.Keys == before.Keys - {key};
    }

    /** Handles one token whose verification and handler outcomes are given: outcomes[i][j]
        is what handler j answers to event i. */
    method Handle(verified: bool, iss: string, jti: string, outcomes: seq<seq<bool>>, now: int) returns (r: Outcome)
      requires Valid()
      modifies this
      ensures Valid()
      ensures !verified ==> r == NotVerified && seen == old(seen)
      ensures verified ==>
                var key := KeyOf(iss, jti);
                var (after, m) := MarkSeen(old(seen), max, window, key, now);
                match m
                case Replay => r == Replayed && seen == old(seen)
                case Full => r == Refused && seen == after
                case Marked => if AllSucceed(outcomes) then r == Handled && seen == after
                               else r == HandlerFailed && seen == after - {key}
      ensures (seen, r) == HandleOf(old(seen), max, window, Call(verified, iss, jti, AllSucceed(outcomes), now))
    {
      if !verified {
        return NotVerified;
      }
      var key := KeyOf(iss, jti);
      var m := MarkKey(key, now);
      if m == Replay {
        return Replayed;
      }
      if m == Full {
        return Refused;
      }
      for i := 0 to |outcomes|
        invariant forall a, b :: 0 <= a < i && 0 <= b < |outcomes[a]| ==> outcomes[a][b]
        invariant Valid() && (seen, m) == MarkSeen(old(seen), max, window, key, now)
      {
        for j := 0 to |outcomes[i]|
          invariant forall b :: 0 <= b < j ==> outcomes[i][b]
          invariant Valid() && (seen, m) == MarkSeen(old(seen), max, window, key, now)
        {
          if !outcomes[i][j] {
            Forget(key);
            return HandlerFailed;
          }
        }
      }
      return Handled;
    }
  }

  /** One call of Handle: whether the token verifies, and whether all its handlers succeed. */
  datatype Call = Call(verified: bool, iss: string, jti: string, ok: bool, now: int)

  /** The memory after a call, and its outcome. */
  function HandleOf(seen: Seen, max: nat, window: int, c: Call): (Seen, Outcome)
  {
    if !c.verified then (seen, NotVerified)
    else
      var (after, m) := MarkSeen(seen, max, window, KeyOf(c.iss, c.jti), c.now);
      match m
      case Replay => (after, Replayed)
      case Full => (after, Refused)
      case Marked => if c.ok then (after, Handled) else (after - {KeyOf(c.iss, c.jti)}, HandlerFailed)
  }

  predicate AllSucceed(outcomes: seq<seq<bool>>)
  {
    forall i, j :: 0 <= i < |outcomes| && 0 <= j < |outcomes[i]| ==> outcomes[i][j]
  }

  // ---------------------------------------------------------------- keys

  /** The issuer and the token id, joined by a NUL byte. */
  function KeyOf(iss: string, jti: string): string { iss + "\0" + jti }

  ghost predicate Injective(issuers: set<string>)
  {
    forall a, b, j, k :: a in issuers && b in issuers && KeyOf(a, j) == KeyOf(b, k) ==> a == b && j == k
  }

  /** No issuer continues another one with a NUL byte. */
  ghost predicate NulPrefixFree(issuers: set<string>)
  {
    forall a, b :: a in issuers && b in issuers ==> !(a + "\0" <= b)
  }

  lemma SameKey(a: string, j: string, b: string, k: string)
    requires KeyOf(a, j) == KeyOf(b, k) && |a| < |b|
    ensures a + "\0" <= b
  {
    var s := KeyOf(a, j);
    assert forall i :: 0 <= i <= |a| ==> (a + "\0")[i] == s[i] == KeyOf(b, k)[i] == b[i];
  }

  /** Keys of different tokens differ exactly when no trusted issuer continues another one
      with a NUL; in particular for issuers without NUL. */
  lemma KeysInjectiveIff(issuers: set<string>)
    ensures Injective(issuers) <==> NulPrefixFree(issuers)
  {
    if NulPrefixFree(issuers) {
      forall a, b, j, k | a in issuers && b in issuers && KeyOf(a, j) == KeyOf(b, k)
        ensures a == b && j == k
      {
        if |a| < |b| {
          SameKey(a, j, b, k);
        } else if |b| < |a| {
          SameKey(b, k, a, j);
        } else {
          assert KeyOf(a, j)[..|a|] == a && KeyOf(b, k)[..|b|] == b;
          assert KeyOf(a, j)[|a| + 1..] == j && KeyOf(b, k)[|b| + 1..] == k;
        }
      }
    } else {
      var a, b :| a in issuers && b in issuers && a + "\0" <= b;
      var rest := b[|a| + 1..];
      assert b == a + "\0" + rest;
      assert KeyOf(a, rest + "\0") == KeyOf(b, "");
      assert a != b;
    }
  }

  lemma NoNulIsFree(issuers: set<string>)
    requires forall a :: a in issuers ==> '\0' !in a
    ensures NulPrefixFree(issuers)
  {
    forall a, b | a in issuers && b in issuers
      ensures !(a + "\0" <= b)
    {
      if |a| < |b| {
        assert b[|a|] in b && (a + "\0")[|a|] == '\0';
      }
    }
  }

  // ---------------------------------------------------------------- the memory

  lemma PutSize(m: Seen, key: string, deadline: int)
    ensures |m[key := deadline]| <= |m| + 1
  {
    assert m[key := deadline].Keys == m.Keys + {key};
    assert |m[key := deadline].Keys| == |m[key := deadline]| && |m.Keys| == |m|;
  }

  lemma LiveSize(seen: Seen, now: int)
    ensures |LiveOnly(seen, now)| <= |seen|
  {
    Orders.SubsetSize(LiveOnly(seen, now).Keys, seen.Keys);
    assert |LiveOnly(seen, now).Keys| == |LiveOnly(seen, now)| && |seen.Keys| == |seen|;
  }

  lemma MarkBounded(seen: Seen, max: nat, window: int, key: string, now: int)
    requires |seen| <= max && max > 0
    ensures |MarkSeen(seen, max, window, key, now).0| <= max
  {
    LiveSize(seen, now);
    PutSize(seen, key, now + window);
    PutSize(LiveOnly(seen, now), key, now + window);
  }

  /** Marking keeps every live mark with its deadline, stays within the bound, and refuses
      a new key only when the memory is full of live marks. */
  lemma MarkKeepsLive(seen: Seen, max: nat, window: int, key: string, now: int, k: string)
    requires |seen| <= max && max > 0
    ensures var (after, m) := MarkSeen(seen, max, window, key, now);
            && |after| <= max
            && (Live(seen, k, now) ==> k in after && after[k] == seen[k])
            && (m == Full <==> !Live(seen, key, now) && |LiveOnly(seen, now)| == max)
  {
    MarkBounded(seen, max, window, key, now);
    LiveSize(seen, now);
  }

  /** A failed handler leaves the token retryable: once its mark is forgotten, the next
      delivery of it is accepted, even by a memory that was full. */
  lemma FailedIsRetryable(seen: Seen, max: nat, window: int, key: string, now: int, later: int)
    requires |seen| <= max && max > 0 && MarkSeen(seen, max, window, key, now).1 == Marked
    ensures var forgotten := MarkSeen(seen, max, window, key, now).0 - {key};
            MarkSeen(forgotten, max, window, key, later).1 == Marked
  {
    var after := MarkSeen(seen, max, window, key, now).0;
    MarkKeepsLive(seen, max, window, key, now, key);
    assert (after - {key}).Keys == after.Keys - {key};
    assert |after.Keys| == |after| && |(after - {key}).Keys| == |after - {key}|;
  }

  // ---------------------------------------------------------------- overlapping deliveries

  /** A delivery begins by marking its key, and finishes when its handlers are done. The time
      of a begin is the clock reading it marks with, which was taken before the memory was
      locked; so overlapping deliveries may mark in another order than their readings. */
  datatype Event =
    | Begin(h: nat, key: string, now: int)
    | Finish(h: nat, ok: bool, now: int)

  datatype Claim = Claim(key: string, began: int)

  /** Deliveries in flight, and those whose handlers all succeeded. */
  datatype State = State(seen: Seen, running: map<nat, Claim>, done: map<nat, Claim>)

  const START := State(map[], map[], map[])

  /** Handles are numbered apart; a delivery that is not in flight cannot finish. */
  ghost predicate Allowed(s: State, e: Event)
  {
    match e
    case Begin(h, _, _) => h !in s.running && h !in s.done
    case Finish(h, _, _) => h in s.running
  }

  function Step(s: State, max: nat, window: int, e: Event): State
    requires e.Finish? ==> e.h in s.running
  {
    match e
    case Begin(h, key, now) =>
      var (seen, m) := MarkSeen(s.seen, max, window, key, now);
      State(seen, if m == Marked then s.running[h := Claim(key, now)] else s.running, s.done)
    case Finish(h, ok, now) =>
      var c := s.running[h];
      if ok then State(s.seen, s.running - {h}, s.done[h := c])
      else State(s.seen - {c.key}, s.running - {h}, s.done)
  }

  /** A delivery that fails does so at most `limit` after it began. */
  ghost predicate FailsWithin(s: State, limit: int, e: Event)
  {
    e.Finish? && !e.ok && e.h in s.running ==> e.now <= s.running[e.h].began + limit
  }

  /** The latest time of a run. */
  function Latest(events: seq<Event>): int
    requires events != []
  {
    var n := |events| - 1;
    if n == 0 then events[0].now else Max(Latest(events[..n]), events[n].now)
  }

  function Max(a: int, b: int): int { if a < b then b else a }

  /** A begin marks with a reading at most `lag` behind the latest time of the run. */
  ghost predicate Timely(latest: int, lag: int, e: Event)
  {
    if e.Begin? then latest - lag <= e.now else latest <= e.now
  }

  /** The claims that count: in flight or completed. */
  ghost function ClaimOf(s: State, h: nat): Option<Claim>
  {
    if h in s.running then Some(s.running[h]) else if h in s.done then Some(s.done[h]) else None
  }

  /** Of two claims of one key the older is a window behind the latest time, and nearly a
      window older. */
  ghost predicate Spaced(c: Claim, c': Claim, window: int, lag: int, latest: int)
  {
    c.key == c'.key && c.began <= c'.began ==> c.began + window <= latest && c.began + window - lag <= c'.began
  }

  ghost predicate PairSound(s: State, h: nat, h': nat, window: int, lag: int, latest: int)
  {
    ClaimOf(s, h).Some? && ClaimOf(s, h').Some? ==>
      Spaced(ClaimOf(s, h).value, ClaimOf(s, h').value, window, lag, latest)
  }

  /** A claim less than a window old has its mark. */
  ghost predicate ClaimSound(s: State, h: nat, window: int, latest: int)
  {
    ClaimOf(s, h).Some? ==>
      var c := ClaimOf(s, h).value;
      && c.began <= latest
      && (latest < c.began + window ==> c.key in s.seen && s.seen[c.key] == c.began + window)
  }

  ghost predicate Sound(s: State, window: int, lag: int, latest: int)
  {
    && s.running.Keys !! s.done.Keys
    && (forall h :: ClaimSound(s, h, window, latest))
    && forall h, h' :: h != h' ==> PairSound(s, h, h', window, lag, latest)
  }

  lemma SoundLater(s: State, window: int, lag: int, latest: int, later: int)
    requires Sound(s, window, lag, latest) && latest <= later
    ensures Sound(s, window, lag, later)
  {
    forall h
      ensures ClaimSound(s, h, window, later)
    {
      assert ClaimSound(s, h, window, latest);
    }
    forall h, h' | h != h'
      ensures PairSound(s, h, h', window, lag, later)
    {
      assert PairSound(s, h, h', window, lag, latest);
    }
  }

  /** Marking keeps the mark of every live claim, and marks no key that has a live claim. */
  lemma ClaimsKeepMarks(seen: Seen, max: nat, window: int, key: string, now: int, latest: int, c: Claim)
    requires now <= latest
    requires latest < c.began + window ==> c.key in seen && seen[c.key] == c.began + window
    ensures var (seen', m) := MarkSeen(seen, max, window, key, now);
            && (latest < c.began + window ==> c.key in seen' && seen'[c.key] == c.began + window)
            && (m == Marked && c.key == key ==> c.began + window <= latest)
  {
    if latest < c.began + window {
      assert Live(seen, c.key, now);
    }
  }

  /** A begin adds one claim, or none. */
  lemma BeginClaims(s: State, max: nat, window: int, e: Event, h: nat)
    requires e.Begin? && Allowed(s, e)
    ensures var m := MarkSeen(s.seen, max, window, e.key, e.now).1;
            ClaimOf(Step(s, max, window, e), h)
            == if m == Marked && h == e.h then Some(Claim(e.key, e.now)) else ClaimOf(s, h)
  {
  }

  lemma BeginClaimSound(s: State, max: nat, window: int, e: Event, latest: int, h: nat)
    requires window > 0 && e.Begin? && Allowed(s, e) && ClaimSound(s, h, window, latest) && e.now <= latest
    ensures ClaimSound(Step(s, max, window, e), h, window, latest)
  {
    BeginClaims(s, max, window, e, h);
    if ClaimOf(s, h).Some? {
      ClaimsKeepMarks(s.seen, max, window, e.key, e.now, latest, ClaimOf(s, h).value);
    }
  }

  lemma BeginPairSound(s: State, max: nat, window: int, lag: int, e: Event, latest: int, h: nat, h': nat)
    requires 0 <= lag < window && e.Begin? && Allowed(s, e) && latest - lag <= e.now <= latest && h != h'
    requires ClaimSound(s, h, window, latest) && ClaimSound(s, h', window, latest)
    requires PairSound(s, h, h', window, lag, latest)
    ensures PairSound(Step(s, max, window, e), h, h', window, lag, latest)
  {
    BeginClaims(s, max, window, e, h);
    BeginClaims(s, max, window, e, h');
    if ClaimOf(s, h).Some? {
      ClaimsKeepMarks(s.seen, max, window, e.key, e.now, latest, ClaimOf(s, h).value);
    }
    if ClaimOf(s, h').Some? {
      ClaimsKeepMarks(s.seen, max, window, e.key, e.now, latest, ClaimOf(s, h').value);
    }
  }

  /** A mark with a reading that is at most `lag` behind. */
  lemma BeginSound(s: State, max: nat, window: int, lag: int, e: Event, latest: int)
    requires 0 <= lag < window && e.Begin? && Allowed(s, e) && Sound(s, window, lag, latest)
    requires latest - lag <= e.now <= latest
    ensures Sound(Step(s, max, window, e), window, lag, latest)
  {
    var s' := Step(s, max, window, e);
    forall h
      ensures ClaimSound(s', h, window, latest)
    {
      BeginClaimSound(s, max, window, e, latest, h);
    }
    forall h, h' | h != h'
      ensures PairSound(s', h, h', window, lag, latest)
    {
      assert ClaimSound(s, h, window, latest) && ClaimSound(s, h', window, latest);
      BeginPairSound(s, max, window, lag, e, latest, h, h');
    }
  }

  /** A finish keeps a claim or, when it fails, drops it. */
  lemma FinishClaims(s: State, max: nat, window: int, e: Event, h: nat)
    requires e.Finish? && Allowed(s, e) && s.running.Keys !! s.done.Keys
    ensures ClaimOf(Step(s, max, window, e), h) == if h == e.h && !e.ok then None else ClaimOf(s, h)
  {
  }

  lemma FinishClaimSound(s: State, max: nat, window: int, lag: int, limit: int, e: Event, latest: int, h: nat)
    requires limit < window && e.Finish? && Allowed(s, e) && FailsWithin(s, limit, e)
    requires e.now == latest && Sound(s, window, lag, latest)
    ensures ClaimSound(Step(s, max, window, e), h, window, latest)
  {
    FinishClaims(s, max, window, e, h);
    assert ClaimSound(s, h, window, latest);
    if h != e.h {
      assert PairSound(s, h, e.h, window, lag, latest) && PairSound(s, e.h, h, window, lag, latest);
    }
  }

  lemma FinishSound(s: State, max: nat, window: int, lag: int, limit: int, e: Event, latest: int)
    requires limit < window && e.Finish? && Allowed(s, e) && FailsWithin(s, limit, e)
    requires e.now == latest && Sound(s, window, lag, latest)
    ensures Sound(Step(s, max, window, e), window, lag, latest)
  {
    var s' := Step(s, max, window, e);
    forall h
      ensures ClaimSound(s', h, window, latest)
    {
      FinishClaimSound(s, max, window, lag, limit, e, latest, h);
    }
    forall h, h' | h != h'
      ensures PairSound(s', h, h', window, lag, latest)
    {
      FinishClaims(s, max, window, e, h);
      FinishClaims(s, max, window, e, h');
      assert PairSound(s, h, h', window, lag, latest);
    }
  }

  /** Deliveries begin and finish; readings lag at most `lag`, and failing handlers fail within
      `limit`. */
  ghost predicate IsRun(max: nat, window: int, limit: int, lag: int, events: seq<Event>)
  {
    events == [] ||
    var n := |events| - 1;
    && IsRun(max, window, limit, lag, events[..n])
    && Allowed(Exec(max, window, events[..n]), events[n])
    && FailsWithin(Exec(max, window, events[..n]), limit, events[n])
    && (n > 0 ==> Timely(Latest(events[..n]), lag, events[n]))
  }

  ghost function Exec(max: nat, window: int, events: seq<Event>): State
  {
    if events == [] then START
    else
      var n := |events| - 1;
      var s := Exec(max, window, events[..n]);
      if Allowed(s, events[n]) then Step(s, max, window, events[n]) else s
  }

  lemma {:induction false} RunSound(max: nat, window: int, limit: int, lag: int, events: seq<Event>)
    requires 0 <= lag < window && limit < window && events != [] && IsRun(max, window, limit, lag, events)
    ensures Sound(Exec(max, window, events), window, lag, Latest(events))
    decreases |events|
  {
    var n := |events| - 1;
    var s, e, latest := Exec(max, window, events[..n]), events[n], Latest(events);
    if n > 0 {
      RunSound(max, window, limit, lag, events[..n]);
      SoundLater(s, window, lag, Latest(events[..n]), latest);
    }
    if e.Begin? {
      BeginSound(s, max, window, lag, e, latest);
    } else {
      FinishSound(s, max, window, lag, limit, e, latest);
    }
  }

  /** Two deliveries whose handlers completed for the same key began at least `gap` apart. */
  ghost predicate CompletedApart(s: State, gap: int)
  {
    forall h, h' :: h in s.done && h' in s.done && h != h' && s.done[h].key == s.done[h'].key ==>
      s.done[h].began + gap <= s.done[h'].began || s.done[h'].began + gap <= s.done[h].began
  }

  lemma OncePerWindow(max: nat, window: int, limit: int, lag: int, events: seq<Event>)
    requires window > 0 && lag >= 0 && (limit < window || lag >= window) && IsRun(max, window, limit, lag, events)
    ensures CompletedApart(Exec(max, window, events), window - lag)
  {
    if lag < window && events != [] {
      var s := Exec(max, window, events);
      RunSound(max, window, limit, lag, events);
      forall h, h' | h in s.done && h' in s.done && h != h'
        ensures Spaced(s.done[h], s.done[h'], window, lag, Latest(events))
      {
        assert PairSound(s, h, h', window, lag, Latest(events));
      }
    }
  }

  lemma RunSnoc(max: nat, window: int, limit: int, lag: int, events: seq<Event>, e: Event)
    requires IsRun(max, window, limit, lag, events) && Allowed(Exec(max, window, events), e)
    requires FailsWithin(Exec(max, window, events), limit, e)
    requires events != [] ==> Timely(Latest(events), lag, e)
    ensures IsRun(max, window, limit, lag, events + [e])
    ensures Exec(max, window, events + [e]) == Step(Exec(max, window, events), max, window, e)
    ensures Latest(events + [e]) == if events == [] then e.now else Max(Latest(events), e.now)
  {
    assert (events + [e])[..|events|] == events;
  }

  // ---------------------------------------------------------------- failing late

  /** A token delivered again just when its mark expires, with the first delivery still in
      flight. */
  lemma BeginsAgain(max: nat, window: int, limit: int, lag: int, key: string) returns (events: seq<Event>)
    requires max > 0 && window > 0 && lag >= 0
    ensures IsRun(max, window, limit, lag, events) && events != [] && Latest(events) == window
    ensures Exec(max, window, events)
            == State(map[key := 2 * window], map[1 := Claim(key, 0), 2 := Claim(key, window)], map[])
  {
    RunSnoc(max, window, limit, lag, [], Begin(1, key, 0));
    events := [] + [Begin(1, key, 0)];
    var s1 := State(map[key := window], map[1 := Claim(key, 0)], map[]);
    assert Exec(max, window, events) == s1;
    RunSnoc(max, window, limit, lag, events, Begin(2, key, window));
    events := events + [Begin(2, key, window)];
    assert LiveOnly(s1.seen, window) == map[];
  }

  /** If the first delivery fails only then, it deletes the mark of the second. */
  lemma LateFailure(max: nat, window: int, limit: int, lag: int, key: string) returns (events: seq<Event>)
    requires max > 0 && window > 0 && lag >= 0 && limit >= window
    ensures IsRun(max, window, limit, lag, events) && events != [] && Latest(events) == window
    ensures Exec(max, window, events) == State(map[], map[2 := Claim(key, window)], map[])
  {
    events := BeginsAgain(max, window, limit, lag, key);
    var s := Exec(max, window, events);
    RunSnoc(max, window, limit, lag, events, Finish(1, false, window));
    events := events + [Finish(1, false, window)];
    assert s.seen - {key} == map[] && s.running - {1} == map[2 := Claim(key, window)];
  }

  /** A third delivery is then accepted at once, and both complete. */
  lemma LateFailureRepeats(max: nat, window: int, limit: int, lag: int, key: string) returns (events: seq<Event>)
    requires max > 0 && window > 0 && lag >= 0 && limit >= window
    ensures IsRun(max, window, limit, lag, events)
    ensures var done := Exec(max, window, events).done;
            2 in done && 3 in done && done[2] == done[3] == Claim(key, window)
  {
    events := LateFailure(max, window, limit, lag, key);
    RunSnoc(max, window, limit, lag, events, Begin(3, key, window));
    events := events + [Begin(3, key, window)];
    RunSnoc(max, window, limit, lag, events, Finish(2, true, window));
    events := events + [Finish(2, true, window)];
    RunSnoc(max, window, limit, lag, events, Finish(3, true, window));
    events := events + [Finish(3, true, window)];
  }

  /** In every run, with any overlap of deliveries and with readings up to `lag` behind, two
      completed deliveries of one key began at least `window - lag` apart, if and only if
      failing handlers are done failing before the window ends (or the lag is so large that
      nothing is promised). With readings in order, `lag == 0`, that is once per window. */
  lemma OncePerWindowIff(max: nat, window: int, limit: int, lag: int)
    requires max > 0 && window > 0 && lag >= 0
    ensures (forall events :: IsRun(max, window, limit, lag, events) ==>
               CompletedApart(Exec(max, window, events), window - lag))
            <==> limit < window || lag >= window
  {
    if limit < window || lag >= window {
      forall events | IsRun(max, window, limit, lag, events)
        ensures CompletedApart(Exec(max, window, events), window - lag)
      {
        OncePerWindow(max, window, limit, lag, events);
      }
    } else {
      var events := LateFailureRepeats(max, window, limit, lag, "k");
    }
  }

  // ---------------------------------------------------------------- marking late

  /** The key of the i-th delivery that fills the memory. */
  function Filler(i: nat): (key: string)
    ensures |key| == i
  {
    seq(i, _ => 'f')
  }

  /** A memory of n marks that all expire when the window ends. */
  ghost predicate Filled(s: State, window: int, n: nat)
  {
    && |s.seen| == n && (forall k :: k in s.seen ==> s.seen[k] == window && |k| < n)
    && (forall h :: h in s.running ==> h <= n) && s.done == map[1 := Claim("", 0)]
  }

  /** The token with the empty key is handled at time 0, and n - 1 others are delivered. */
  lemma {:induction false} Fill(max: nat, window: int, limit: int, lag: int, n: nat) returns (events: seq<Event>)
    requires 0 < n <= max && window > 0 && lag >= 0
    ensures IsRun(max, window, limit, lag, events) && events != [] && Latest(events) == 0
    ensures Filled(Exec(max, window, events), window, n)
  {
    if n == 1 {
      RunSnoc(max, window, limit, lag, [], Begin(1, "", 0));
      events := [] + [Begin(1, "", 0)];
      assert Exec(max, window, events) == State(map["" := window], map[1 := Claim("", 0)], map[]);
      RunSnoc(max, window, limit, lag, events, Finish(1, true, 0));
      events := events + [Finish(1, true, 0)];
    } else {
      events := Fill(max, window, limit, lag, n - 1);
      var s, key := Exec(max, window, events), Filler(n - 1);
      assert key !in s.seen;
      RunSnoc(max, window, limit, lag, events, Begin(n, key, 0));
      events := events + [Begin(n, key, 0)];
      assert s.seen[key := window].Keys == s.seen.Keys + {key};
      assert |s.seen[key := window].Keys| == |s.seen[key := window]| && |s.seen.Keys| == |s.seen|;
    }
  }

  lemma SweepsAll(s: State, max: nat, window: int)
    requires max > 0 && window > 0 && Filled(s, window, max)
    ensures MarkSeen(s.seen, max, window, Filler(max + 1), window) == (map[Filler(max + 1) := 2 * window], Marked)
  {
    assert Filler(max + 1) !in s.seen && LiveOnly(s.seen, window) == map[];
  }

  /** A full memory is swept by a delivery that reads the clock when the window ends. */
  lemma SweptFull(max: nat, window: int, limit: int, lag: int) returns (events: seq<Event>)
    requires max > 0 && window > 0 && lag >= 0
    ensures IsRun(max, window, limit, lag, events) && events != [] && Latest(events) == window
    ensures var s := Exec(max, window, events);
            && s.seen == map[Filler(max + 1) := 2 * window] && s.done == map[1 := Claim("", 0)]
            && forall h :: h in s.running ==> h <= max + 1
  {
    events := Fill(max, window, limit, lag, max);
    var s := Exec(max, window, events);
    SweepsAll(s, max, window);
    RunSnoc(max, window, limit, lag, events, Begin(max + 1, Filler(max + 1), window));
    events := events + [Begin(max + 1, Filler(max + 1), window)];
  }

  /** The gap is reached, without any failing handler, by every memory of at least two entries:
      a delivery that read the clock `lag` earlier marks after a sweep has removed the mark it
      should have met. So with any overlap of readings, once per window is too much to say. */
  lemma GapReached(max: nat, window: int, limit: int, lag: int) returns (events: seq<Event>)
    requires max > 1 && window > 0 && 0 <= lag < window
    ensures IsRun(max, window, limit, lag, events)
    ensures var done := Exec(max, window, events).done;
            1 in done && max + 2 in done && done[1] == Claim("", 0) && done[max + 2] == Claim("", window - lag)
  {
    events := SweptFull(max, window, limit, lag);
    var s := Exec(max, window, events);
    assert "" !in s.seen && |s.seen| == 1;
    RunSnoc(max, window, limit, lag, events, Begin(max + 2, "", window - lag));
    events := events + [Begin(max + 2, "", window - lag)];
    RunSnoc(max, window, limit, lag, events, Finish(max + 2, true, window));
    events := events + [Finish(max + 2, true, window)];
  }

  /** For a memory of at least two entries and failing handlers that are done in time, the
      guaranteed distance of two completed deliveries of one key is exactly `window - lag`. */
  lemma GapIff(max: nat, window: int, limit: int, lag: int, gap: int)
    requires max > 1 && 0 <= lag < window && limit < window
    ensures (forall events :: IsRun(max, window, limit, lag, events) ==> CompletedApart(Exec(max, window, events), gap))
            <==> gap <= window - lag
  {
    if gap <= window - lag {
      forall events | IsRun(max, window, limit, lag, events)
        ensures CompletedApart(Exec(max, window, events), gap)
      {
        OncePerWindow(max, window, limit, lag, events);
      }
    } else {
      var events := GapReached(max, window, limit, lag);
      var done := Exec(max, window, events).done;
      assert done[1].key == done[max + 2].key;
    }
  }
}
