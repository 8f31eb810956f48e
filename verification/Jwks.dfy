/**
 The resource server's cache of verification keys. A lookup reads the clock several times;
 a fetch of the key document is an input that may fail. Times and ages are nanoseconds.
 */
module Jwks {
  import opened Options

  datatype Key = Key(material: string, alg: string)

  type Keys = map<string, Key>

  /** The zero time means never fetched; ages saturate at the largest duration. */
  datatype Cache = Cache(keys: Keys, lastFetched: Option<int>)

  const MAX_DURATION: int := 0x7fff_ffff_ffff_ffff

  datatype Limits = Limits(ttl: int, staleLimit: int, minRefresh: int)

  ghost predicate Sane(l: Limits)
  {
    l.ttl < MAX_DURATION && 0 < l.staleLimit < MAX_DURATION && l.minRefresh < MAX_DURATION
  }

  function Age(c: Cache, now: int): int
  {
    if c.lastFetched.None? || now - c.lastFetched.value > MAX_DURATION then MAX_DURATION else now - c.lastFetched.value
  }

  /** What a fetch yields: nothing usable, or the usable signing keys of the document. */
  datatype Fetch = Failed | Document(keys: Keys)

  /** The clock readings of one lookup, in order. */
  datatype Clock = Clock(probe: int, throttle: int, stored: int, recheck: int)

  ghost predicate InOrder(t: Clock) { t.probe <= t.throttle <= t.stored <= t.recheck }

  // ---------------------------------------------------------------- what a lookup does

  predicate Throttled(c: Cache, l: Limits, now: int) { Age(c, now) < l.minRefresh && |c.keys| > 0 }

  /** The cache after a refresh, whether it succeeded, and whether it went to the network. An
      empty key set never replaces a working one. */
  function Refresh(c: Cache, l: Limits, t: Clock, f: Fetch): (Cache, bool, bool)
  {
    if Throttled(c, l, t.throttle) then (c, true, false)
    else if f.Failed? || |f.keys| == 0 then (c, false, true)
    else (Cache(f.keys, Some(t.stored)), true, true)
  }

  function Lookup(c: Cache, l: Limits, kid: string, t: Clock, f: Fetch): (Cache, Option<Key>, bool)
  {
    if kid in c.keys && Age(c, t.probe) <= l.ttl then (c, Some(c.keys[kid]), false)
    else
      var (c', ok, fetched) := Refresh(c, l, t, f);
      if !ok
      then (c', if kid in c'.keys && Age(c', t.recheck) <= l.staleLimit then Some(c'.keys[kid]) else None, fetched)
      else (c', if kid in c'.keys then Some(c'.keys[kid]) else None, fetched)
  }

  class JwksCache {
    const limits: Limits
    var keys: Keys
    var lastFetched: Option<int>

    ghost function Value(): Cache
      reads this
    {
      Cache(keys, lastFetched)
    }

    constructor (ttl: int, maxStale: int)
      ensures Value() == Cache(map[], None)
      ensures limits == Limits(ttl, if maxStale > 0 then maxStale else 3600 * 1_000_000_000, 5 * 1_000_000_000)
    {
      limits := Limits(ttl, if maxStale > 0 then maxStale else 3600 * 1_000_000_000, 5 * 1_000_000_000);
      keys, lastFetched := map[], None;
    }

    method RefreshKeys(t: Clock, f: Fetch) returns (ok: bool, fetched: bool)
      modifies this
      ensures (Value(), ok, fetched) == Refresh(old(Value()), limits, t, f)
    {
      if Age(Cache(keys, lastFetched), t.throttle) < limits.minRefresh && |keys| > 0 {
        return true, false;
      }
      if f.Failed? || |f.keys| == 0 {
        return false, true;
      }
      keys, lastFetched := f.keys, Some(t.stored);
      return true, true;
    }

    method LookupKey(kid: string, t: Clock, f: Fetch) returns (r: Option<Key>, fetched: bool)
      modifies this
      ensures (Value(), r, fetched) == Lookup(old(Value()), limits, kid, t, f)
    {
      var stale := Age(Cache(keys, lastFetched), t.probe) > limits.ttl;
      if kid in keys && !stale {
        return Some(keys[kid]), false;
      }
      var ok;
      ok, fetched := RefreshKeys(t, f);
      if !ok {
        var age := Age(Cache(keys, lastFetched), t.recheck);
        if kid in keys && age <= limits.staleLimit {
          return Some(keys[kid]), fetched;
        }
        return None, fetched;
      }
      if kid !in keys {
        return None, fetched;
      }
      return Some(keys[kid]), fetched;
    }

    /** A key whose document pins an algorithm serves that algorithm only. */
    method KeyFor(kid: string, alg: string, t: Clock, f: Fetch) returns (r: Option<string>)
      modifies this
      ensures var k := Lookup(old(Value()), limits, kid, t, f).1;
              r == if k.Some? && (k.value.alg == "" || k.value.alg == alg) then Some(k.value.material) else None
      ensures Value() == Lookup(old(Value()), limits, kid, t, f).0
    {
      var k, _ := LookupKey(kid, t, f);
      if k.None? || (k.value.alg != "" && k.value.alg != alg) {
        return None;
      }
      return Some(k.value.material);
    }

    method ForceRefresh()
      modifies this
      ensures Value() == old(Value()).(lastFetched := None)
    {
      lastFetched := None;
    }
  }

  // ---------------------------------------------------------------- runs

  datatype Event = Ask(kid: string, t: Clock, f: Fetch) | Force

  /** The document the cache was filled from, and when; kept beside the cache. */
  datatype Origin = Origin(doc: Keys, at: int)

  /** The cache, its origin, the answer to the last lookup with the origin it came from and
      the time of the check that let it through, and whether that lookup fetched. */
  datatype World = World(c: Cache, origin: Option<Origin>, answer: Option<Key>, fetched: bool)

  const START := World(Cache(map[], None), None, None, false)

  function Next(l: Limits, w: World, e: Event): World
  {
    match e
    case Force => World(w.c.(lastFetched := None), w.origin, None, false)
    case Ask(kid, t, f) =>
      var (c, r, fetched) := Lookup(w.c, l, kid, t, f);
      var stored := fetched && f.Document? && |f.keys| > 0;
      World(c, if stored then Some(Origin(f.keys, t.stored)) else w.origin, r, fetched)
  }

  /** The cache holds its origin's document, which is not empty, and dates it correctly
      unless a refresh was forced. */
  ghost predicate Inv(w: World)
  {
    if w.origin.None? then w.c == Cache(map[], None)
    else && w.c.keys == w.origin.value.doc && |w.c.keys| > 0
         && (w.c.lastFetched == Some(w.origin.value.at) || w.c.lastFetched.None?)
  }

  lemma NextKeeps(l: Limits, w: World, e: Event)
    requires Inv(w)
    ensures Inv(Next(l, w, e))
  {
  }

  /** The time of the clock reading that admitted the answer of a lookup. */
  function CheckedAt(w: World, l: Limits, e: Event): int
    requires e.Ask?
  {
    if e.kid in w.c.keys && Age(w.c, e.t.probe) <= l.ttl then e.t.probe
    else
      var (c, ok, fetched) := Refresh(w.c, l, e.t, e.f);
      if !ok then e.t.recheck else if fetched then e.t.stored else e.t.throttle
  }

  function Max3(a: int, b: int, c: int): int { var m := if a < b then b else a; if m < c then c else m }

  /** Any sequence of lookups, failed fetches and forced refreshes. */
  function Exec(l: Limits, events: seq<Event>): World
  {
    if events == [] then START else Next(l, Exec(l, events[..|events| - 1]), events[|events| - 1])
  }

  lemma {:induction false} ExecInv(l: Limits, events: seq<Event>)
    ensures Inv(Exec(l, events))
  {
    if events != [] {
      ExecInv(l, events[..|events| - 1]);
      NextKeeps(l, Exec(l, events[..|events| - 1]), events[|events| - 1]);
    }
  }

  /** Staleness: after any history, a key is only returned from a fetched, non-empty document
      that holds it, and whose age, when it was checked, is at most the largest of the three
      limits. */
  lemma AnswersAreFresh(l: Limits, history: seq<Event>, e: Event)
    requires Sane(l) && e.Ask? && InOrder(e.t) && Next(l, Exec(l, history), e).answer.Some?
    ensures var w, w' := Exec(l, history), Next(l, Exec(l, history), e);
            && w'.origin.Some? && |w'.origin.value.doc| > 0
            && e.kid in w'.origin.value.doc && w'.origin.value.doc[e.kid] == w'.answer.value
            && CheckedAt(w, l, e) - w'.origin.value.at <= Max3(l.ttl, l.staleLimit, l.minRefresh)
  {
    ExecInv(l, history);
    NextKeeps(l, Exec(l, history), e);
  }

  /** A run of lookups on a clock that never goes back, with the world after each. */
  ghost predicate IsRun(l: Limits, events: seq<Event>, worlds: seq<World>)
  {
    && |worlds| == |events| + 1 && worlds[0] == START
    && (forall i :: 0 <= i < |events| ==> worlds[i + 1] == Next(l, worlds[i], events[i]))
    && (forall i :: 0 <= i < |events| ==> events[i].Ask? && InOrder(events[i].t))
    && forall i, j :: 0 <= i < j < |events| ==> events[i].t.recheck <= events[j].t.probe
  }

  /** Event i stored a document. */
  ghost predicate Succeeded(events: seq<Event>, worlds: seq<World>, i: nat)
    requires |worlds| == |events| + 1 && i < |events|
  {
    events[i].Ask? && worlds[i + 1].fetched && events[i].f.Document? && |events[i].f.keys| > 0
  }

  lemma {:induction false} RunInv(l: Limits, events: seq<Event>, worlds: seq<World>, j: nat)
    requires IsRun(l, events, worlds) && j < |worlds|
    ensures Inv(worlds[j])
    ensures worlds[j].origin.Some? ==> worlds[j].c.lastFetched == Some(worlds[j].origin.value.at)
    ensures forall i :: 0 <= i < j && Succeeded(events, worlds, i) ==>
              worlds[j].origin.Some? && events[i].t.stored <= worlds[j].origin.value.at
  {
    if j > 0 {
      RunInv(l, events, worlds, j - 1);
      NextKeeps(l, worlds[j - 1], events[j - 1]);
      forall i | 0 <= i < j && Succeeded(events, worlds, i)
        ensures worlds[j].origin.Some? && events[i].t.stored <= worlds[j].origin.value.at
      {
        if i < j - 1 {
          assert events[i].t.recheck <= events[j - 1].t.probe;
        }
      }
    }
  }

  /** Throttling: over any run of lookups, none goes to the network within the minimum
      refresh interval of a successful fetch, however many unknown keys are asked for. */
  lemma FetchesThrottled(l: Limits, events: seq<Event>, worlds: seq<World>, i: nat, j: nat)
    requires IsRun(l, events, worlds) && i < j < |events| && l.minRefresh < MAX_DURATION
    requires Succeeded(events, worlds, i) && worlds[j + 1].fetched
    ensures events[j].t.throttle >= events[i].t.stored + l.minRefresh
  {
    RunInv(l, events, worlds, j);
  }

  // ---------------------------------------------------------------- what a lookup answers

  function KeyIn(doc: Keys, kid: string): Option<Key> { if kid in doc then Some(doc[kid]) else None }

  /** The age of what the cache holds is below a limit. */
  predicate Within(o: Option<Origin>, now: int, limit: int) { o.Some? && now - o.value.at <= limit }

  /** What a lookup answers, told by the document that the cache was filled from: a known key
      while that is fresh; nothing new within the minimum interval; else what the fetched
      document says; and after a failed fetch the old key within the stale limit. */
  ghost predicate Answers(l: Limits, o: Option<Origin>, e: Event, w': World)
    requires e.Ask?
  {
    var known := if o.Some? then KeyIn(o.value.doc, e.kid) else None;
    if Within(o, e.t.probe, l.ttl) && known.Some? then w'.answer == known && !w'.fetched && w'.origin == o
    else if Within(o, e.t.throttle, l.minRefresh - 1) then w'.answer == known && !w'.fetched && w'.origin == o
    else
      && w'.fetched
      && if e.f.Document? && |e.f.keys| > 0
         then w'.answer == KeyIn(e.f.keys, e.kid) && w'.origin == Some(Origin(e.f.keys, e.t.stored))
         else w'.answer == (if Within(o, e.t.recheck, l.staleLimit) then known else None) && w'.origin == o
  }

  lemma LookupAnswers(l: Limits, w: World, e: Event)
    requires Sane(l) && Inv(w) && e.Ask? && InOrder(e.t)
    requires w.origin.Some? ==> w.c.lastFetched == Some(w.origin.value.at)
    ensures Answers(l, w.origin, e, Next(l, w, e))
  {
  }

  /** The exact answer to every lookup of every run. */
  lemma AnsweredBy(l: Limits, events: seq<Event>, worlds: seq<World>, j: nat)
    requires Sane(l) && IsRun(l, events, worlds) && j < |events|
    ensures Answers(l, worlds[j].origin, events[j], worlds[j + 1])
  {
    RunInv(l, events, worlds, j);
    LookupAnswers(l, worlds[j], events[j]);
  }

  /** After a forced refresh the next lookup fetches; if that fails, no key is served. */
  lemma ForcedFetches(l: Limits, history: seq<Event>, e: Event)
    requires Sane(l) && e.Ask? && InOrder(e.t)
    ensures var w := Next(l, Next(l, Exec(l, history), Force), e);
            && w.fetched
            && (e.f.Failed? ==> w.answer.None?)
            && (e.f.Document? && |e.f.keys| > 0 ==> w.answer == KeyIn(e.f.keys, e.kid))
  {
    ExecInv(l, history);
  }
}
