/**
 The resource server's cache of introspection answers, keyed by token hash and audience.
 The answer of the authorization server to a lookup is an input.
 */
module Introspect {
  import opened Options

  /** An answer; only whether the token is active matters here. */
  datatype Answer = Answer(active: bool, body: string)

  datatype Entry = Entry(expiresAt: int, result: Answer)

  type Entries = map<string, Entry>

  const MAX_ENTRIES := 10000

  predicate Live(es: Entries, key: string, now: int) { key in es && now < es[key].expiresAt }

  function CacheKey(hash: string -> string, token: string, audience: string): string { hash(token) + ":" + audience }

  /** SHA-256 in hex: always 64 characters. */
  ghost predicate FixedLength(hash: string -> string) { forall t :: |hash(t)| == 64 }

  /** Entries of the given token hash, whatever the audience. */
  predicate HasPrefix(key: string, hash: string) { hash + ":" <= key }

  function Invalidated(es: Entries, hash: string): (r: Entries)
    ensures forall k :: k in r <==> k in es && !HasPrefix(k, hash)
    ensures forall k :: k in r ==> r[k] == es[k]
  {
    map k | k in es && !HasPrefix(k, hash) :: es[k]
  }

  function LiveOnly(es: Entries, now: int): (r: Entries)
    ensures forall k :: k in r <==> Live(es, k, now)
    ensures forall k :: k in r ==> k in es && r[k] == es[k]
  {
    map k | k in es && now < es[k].expiresAt :: es[k]
  }

  /** What is left when room for one more has been made: a full cache drops what has expired,
      and one arbitrary live entry if that is not enough. */
  ghost predicate RoomMade(before: Entries, after: Entries, now: int)
  {
    if |before| < MAX_ENTRIES then after == before
    else if |LiveOnly(before, now)| < MAX_ENTRIES then after == LiveOnly(before, now)
    else exists k :: k in LiveOnly(before, now) && after == LiveOnly(before, now) - {k}
  }

  /** The entries after one was stored. */
  ghost predicate Inserted(before: Entries, after: Entries, key: string, e: Entry, now: int)
  {
    |after| <= MAX_ENTRIES && exists room :: RoomMade(before, room, now) && after == room[key := e]
  }

  /** The steps of a run. A store is the last part of a lookup that asked the server, and may
      overlap others: `asked` is the number of steps that had been taken when it asked, and `life`
      the lifetime that the server gave, zero or less when it gave none. A look changes nothing. */
  datatype Event =
    | Store(token: string, audience: string, answer: Answer, life: int, now: int, asked: nat)
    | Invalidate(token: string)
    | Look(token: string)

  /** The cache, and for each entry the number of the store it came from. */
  datatype World = World(entries: Entries, origin: map<string, nat>)

  /** One step: a store re-checks under the lock and otherwise replaces the entry, possibly
      after evictions, for the lifetime of the answer or the configured one; an invalidation
      removes the token's entries. */
  ghost predicate Step(hash: string -> string, ttl: int, w: World, n: nat, e: Event, w': World)
  {
    match e
    case Look(_) => w' == w
    case Invalidate(token) =>
      w'.entries == Invalidated(w.entries, hash(token)) && w'.origin == w.origin
    case Store(token, audience, answer, life, now, asked) =>
      asked <= n &&
      var key := CacheKey(hash, token, audience);
      if Live(w.entries, key, now) then w' == w
      else
        && w'.origin == w.origin[key := n]
        && Inserted(w.entries, w'.entries, key, Entry(now + (if life <= 0 then ttl else life), answer), now)
  }

  /** What a call of the cache answers. */
  datatype Reply = Reply(answer: Option<Answer>, asked: bool)

  /** The calls: a lookup, with what the server would answer and the clock readings, and an
      invalidation. */
  datatype Call =
    | Lookup(token: string, audience: string, probe: int, fetched: Option<(Answer, int)>, stored: int)
    | Drop(token: string)

  /** The step that a call takes as number n of a run. */
  function EventOf(c: Call, r: Reply, n: nat): Event
  {
    match c
    case Drop(token) => Invalidate(token)
    case Lookup(token, audience, probe, fetched, stored) =>
      if r.asked && fetched.Some? then Store(token, audience, fetched.value.0, fetched.value.1, stored, n)
      else Look(token)
  }

  /** What a configured cache replies to a call, given its entries: a live entry, or else what
      the server answered. */
  ghost predicate Replies(hash: string -> string, es: Entries, c: Call, r: Reply)
  {
    c.Lookup? ==>
      var key := CacheKey(hash, c.token, c.audience);
      && r.asked == !Live(es, key, c.probe)
      && (!r.asked ==> r.answer == Some(es[key].result))
      && (r.asked ==> r.answer == if c.fetched.Some? then Some(c.fetched.value.0) else None)
  }

  /** Where the entries come from after step n: a store that takes effect is the new origin. */
  function OriginAfter(hash: string -> string, w: World, n: nat, e: Event): map<string, nat>
  {
    if e.Store? && !Live(w.entries, CacheKey(hash, e.token, e.audience), e.now)
    then w.origin[CacheKey(hash, e.token, e.audience) := n] else w.origin
  }

  /** A call takes its step as number n of a run that led to world w. */
  ghost predicate Takes(hash: string -> string, ttl: int, w: World, n: nat, c: Call, r: Reply, after: Entries)
  {
    Step(hash, ttl, w, n, EventOf(c, r, n), World(after, OriginAfter(hash, w, n, EventOf(c, r, n))))
  }

  /** A call replies as it should, and is a step of every run that leads to these entries. */
  ghost predicate Serves(hash: string -> string, ttl: int, before: Entries, c: Call, r: Reply, after: Entries)
  {
    && Replies(hash, before, c, r)
    && forall w: World, n: nat :: w.entries == before ==> Takes(hash, ttl, w, n, c, r, after)
  }

  class IntrospectCache {
    const configured: bool
    const ttl: int
    const hash: string -> string
    var entries: Entries

    ghost predicate Valid()
      reads this
    {
      |entries| <= MAX_ENTRIES && FixedLength(hash)
    }

    constructor (configured: bool, ttl: int, hash: string -> string)
      requires FixedLength(hash)
      ensures Valid() && entries == map[] && this.configured == configured && this.ttl == ttl && this.hash == hash
    {
      this.configured, this.ttl, this.hash, entries := configured, ttl, hash, map[];
    }

    /** A lookup that found nothing live asks the server: `fetched` is its answer with its own
        lifetime, zero when it gave none. An unconfigured cache answers inactive. */
    method Lookup(token: string, audience: string, probe: int, fetched: Option<(Answer, int)>, stored: int)
      returns (r: Option<Answer>, asked: bool)
      requires Valid() && probe <= stored
      modifies this
      ensures Valid()
      ensures !configured ==> r == Some(Answer(false, "")) && !asked && entries == old(entries)
      ensures configured ==>
                Serves(hash, ttl, old(entries), Call.Lookup(token, audience, probe, fetched, stored), Reply(r, asked),
                      entries)
    {
      if !configured {
        return Some(Answer(false, "")), false;
      }
      ghost var c, before := Call.Lookup(token, audience, probe, fetched, stored), entries;
      var key := CacheKey(hash, token, audience);
      if key in entries && probe < entries[key].expiresAt {
        Unchanged(hash, ttl, before, c, Reply(Some(entries[key].result), false));
        return Some(entries[key].result), false;
      }
      if fetched.None? {
        Unchanged(hash, ttl, before, c, Reply(None, true));
        return None, true;
      }
      var (answer, life) := fetched.value;
      var res := Keep(key, answer, life, stored, c);
      return Some(res), true;
    }

    /** Keeps the answer of the server for its own lifetime, or the configured one when it gave
        none. */
    method Keep(key: string, answer: Answer, life: int, stored: int, ghost c: Call) returns (res: Answer)
      requires Valid() && c.Lookup? && c.fetched == Some((answer, life)) && c.probe <= c.stored == stored
      requires key == CacheKey(hash, c.token, c.audience) && !Live(entries, key, c.probe)
      modifies this
      ensures Valid() && res == answer
      ensures Serves(hash, ttl, old(entries), c, Reply(Some(res), true), entries)
    {
      ghost var before := entries;
      var kept := if life <= 0 then ttl else life;
      res := Insert(key, Entry(stored + kept, answer), stored);
      StoreServes(hash, ttl, before, c, entries);
    }

    /** The write-locked part of a lookup. An entry that another lookup stored meanwhile, and
        that is still live, wins. */
    method Insert(key: string, e: Entry, now: int) returns (r: Answer)
      requires Valid()
      modifies this
      ensures Valid()
      ensures Live(old(entries), key, now) ==> r == old(entries)[key].result && entries == old(entries)
      ensures !Live(old(entries), key, now) ==> r == e.result && Inserted(old(entries), entries, key, e, now)
    {
      if key in entries && now < entries[key].expiresAt {
        return entries[key].result;
      }
      EvictLocked(now);
      ghost var room, keys := entries, entries.Keys;
      assert RoomMade(old(entries), room, now);
      entries := entries[key := e];
      assert entries.Keys == keys + {key};
      return e.result;
    }

    /** Makes room for one more entry: expired ones go first, then an arbitrary one. */
    method EvictLocked(now: int)
      requires Valid()
      modifies this
      ensures |entries| < MAX_ENTRIES && RoomMade(old(entries), entries, now)
    {
      if |entries| < MAX_ENTRIES {
        return;
      }
      RemoveExpired(now);
      ghost var live := entries;
      var todo := entries.Keys;
      while todo != {} && |entries| >= MAX_ENTRIES
        invariant || entries == live
                  || (|entries| < MAX_ENTRIES <= |live| && exists k :: k in live && entries == live - {k})
        invariant entries == live ==> todo == entries.Keys
        invariant |live| <= MAX_ENTRIES
        decreases |todo|
      {
        var k :| k in todo;
        ghost var keys := entries.Keys;
        todo := todo - {k};
        entries := entries - {k};
        assert entries.Keys == keys - {k};
      }
    }

    method RemoveExpired(now: int)
      requires Valid()
      modifies this
      ensures Valid() && entries == LiveOnly(old(entries), now)
    {
      var todo := entries.Keys;
      ghost var before := entries;
      while todo != {}
        invariant todo <= entries.Keys <= before.Keys && |entries| <= MAX_ENTRIES
        invariant forall k :: k in entries ==> entries[k] == before[k]
        invariant forall k :: k in before ==> (k in entries <==> k in todo || now < before[k].expiresAt)
        decreases |todo|
      {
        var k :| k in todo;
        todo := todo - {k};
        if now >= entries[k].expiresAt {
          ghost var keys := entries.Keys;
          entries := entries - {k};
          assert entries.Keys == keys - {k};
        }
      }
    }

    method Invalidate(token: string)
      requires Valid()
      modifies this
      ensures Valid() && entries == Invalidated(old(entries), hash(token))
      ensures Serves(hash, ttl, old(entries), Drop(token), Reply(None, false), entries)
    {
      var todo := entries.Keys;
      ghost var before := entries;
      while todo != {}
        invariant todo <= entries.Keys <= before.Keys && |entries| <= MAX_ENTRIES
        invariant forall k :: k in entries ==> entries[k] == before[k]
        invariant forall k :: k in before ==> (k in entries <==> k in todo || !HasPrefix(k, hash(token)))
        decreases |todo|
      {
        var k :| k in todo;
        todo := todo - {k};
        if HasPrefix(k, hash(token)) {
          ghost var keys := entries.Keys;
          entries := entries - {k};
          assert entries.Keys == keys - {k};
        }
      }
    }
  }

  lemma Unchanged(hash: string -> string, ttl: int, es: Entries, c: Call, r: Reply)
    requires Replies(hash, es, c, r) && c.Lookup? && !(r.asked && c.fetched.Some?)
    ensures Serves(hash, ttl, es, c, r, es)
  {
  }

  lemma StoreServes(hash: string -> string, ttl: int, before: Entries, c: Call, after: Entries)
    requires c.Lookup? && c.fetched.Some? && c.probe <= c.stored
    requires var key, (answer, life) := CacheKey(hash, c.token, c.audience), c.fetched.value;
             && !Live(before, key, c.probe)
             && Inserted(before, after, key, Entry(c.stored + (if life <= 0 then ttl else life), answer), c.stored)
    ensures Serves(hash, ttl, before, c, Reply(Some(c.fetched.value.0), true), after)
  {
  }

  // ---------------------------------------------------------------- keys

  /** Invalidation hits exactly the keys of the token's hash. */
  lemma PrefixMeaning(hash: string -> string, token: string, other: string, audience: string)
    requires FixedLength(hash)
    ensures HasPrefix(CacheKey(hash, other, audience), hash(token)) <==> hash(other) == hash(token)
  {
    var k, p := CacheKey(hash, other, audience), hash(token) + ":";
    if p <= k {
      assert k[..64] == hash(other);
      assert p[..64] == hash(token) && p[..64] == k[..64];
    }
    if hash(other) == hash(token) {
      assert k[..65] == p;
    }
  }

  // ---------------------------------------------------------------- runs

  ghost predicate IsRun(hash: string -> string, ttl: int, events: seq<Event>, worlds: seq<World>)
  {
    && |worlds| == |events| + 1 && worlds[0] == World(map[], map[])
    && forall i :: 0 <= i < |events| ==> Step(hash, ttl, worlds[i], i, events[i], worlds[i + 1])
  }

  /** How long a stored answer is kept. */
  function Life(e: Event, ttl: int): int
    requires e.Store?
  {
    if e.life <= 0 then ttl else e.life
  }

  /** An entry is the answer of the store it came from, for the same token hash and audience,
      and lives as long as that answer may; no invalidation of the token came since. */
  ghost predicate Backed(hash: string -> string, ttl: int, events: seq<Event>, w: World, n: nat, key: string)
    requires key in w.entries && n <= |events|
  {
    && key in w.origin && w.origin[key] < n
    && var e := events[w.origin[key]];
       && e.Store? && key == CacheKey(hash, e.token, e.audience)
       && w.entries[key] == Entry(e.now + Life(e, ttl), e.answer)
       && forall i :: w.origin[key] < i < n && events[i].Invalidate? ==> !HasPrefix(key, hash(events[i].token))
  }

  /** The entry of a key was there before, with the same origin, or it was stored just now. */
  ghost predicate Carried(w: World, w': World, key: string)
  {
    key in w.entries && key in w'.entries && w'.entries[key] == w.entries[key]
    && (key in w.origin ==> key in w'.origin && w'.origin[key] == w.origin[key])
  }

  ghost predicate StoredNow(hash: string -> string, ttl: int, w: World, n: nat, e: Event, w': World, key: string)
  {
    && e.Store? && key == CacheKey(hash, e.token, e.audience) && !Live(w.entries, key, e.now)
    && key in w'.entries && w'.entries[key] == Entry(e.now + Life(e, ttl), e.answer)
    && key in w'.origin && w'.origin[key] == n
  }

  lemma EntryFrom(hash: string -> string, ttl: int, w: World, n: nat, e: Event, w': World, key: string)
    requires Step(hash, ttl, w, n, e, w') && key in w'.entries
    ensures Carried(w, w', key) || StoredNow(hash, ttl, w, n, e, w', key)
    ensures e.Invalidate? ==> Carried(w, w', key) && !HasPrefix(key, hash(e.token))
  {
  }

  lemma {:induction false} RunBacked(hash: string -> string, ttl: int, events: seq<Event>, worlds: seq<World>,
                                     n: nat, key: string)
    requires IsRun(hash, ttl, events, worlds) && n < |worlds| && key in worlds[n].entries
    ensures Backed(hash, ttl, events, worlds[n], n, key)
  {
    if n > 0 {
      var w, e, w' := worlds[n - 1], events[n - 1], worlds[n];
      EntryFrom(hash, ttl, w, n - 1, e, w', key);
      if Carried(w, w', key) {
        RunBacked(hash, ttl, events, worlds, n - 1, key);
      }
    }
  }

  /** No token of the run shares the hash of another one. */
  ghost predicate NoCollision(hash: string -> string, events: seq<Event>, token: string)
  {
    forall i :: 0 <= i < |events| && hash(events[i].token) == hash(token) ==> events[i].token == token
  }

  /** A hit, at any point of any run and with any overlap of lookups, is an answer of the
      server for that token and audience whose own lifetime has not elapsed, stored after
      the last invalidation of the token. */
  lemma HitsAreCurrent(hash: string -> string, ttl: int, events: seq<Event>, worlds: seq<World>, n: nat,
                       token: string, audience: string, now: int)
    requires IsRun(hash, ttl, events, worlds) && n < |worlds| && FixedLength(hash)
    requires NoCollision(hash, events, token)
    requires Live(worlds[n].entries, CacheKey(hash, token, audience), now)
    ensures exists i :: 0 <= i < n && events[i].Store?
              && events[i].token == token && events[i].audience == audience
              && worlds[n].entries[CacheKey(hash, token, audience)].result == events[i].answer
              && now < events[i].now + (if events[i].life > 0 then events[i].life else ttl)
              && forall j :: i < j < n && events[j].Invalidate? ==> events[j].token != token
  {
    var key := CacheKey(hash, token, audience);
    RunBacked(hash, ttl, events, worlds, n, key);
    var i := worlds[n].origin[key];
    var e := events[i];
    SameKey(hash, token, audience, e.token, e.audience);
    forall j | i < j < n && events[j].Invalidate?
      ensures events[j].token != token
    {
      PrefixMeaning(hash, events[j].token, token, audience);
    }
  }

  /** The store that an entry came from took effect: no live entry was in its way. */
  lemma {:induction false} OriginTookEffect(hash: string -> string, ttl: int, events: seq<Event>, worlds: seq<World>,
                                            n: nat, key: string)
    requires IsRun(hash, ttl, events, worlds) && n < |worlds| && key in worlds[n].entries
    ensures Backed(hash, ttl, events, worlds[n], n, key)
    ensures var i := worlds[n].origin[key]; !Live(worlds[i].entries, key, events[i].now)
  {
    if n > 0 {
      var w, e, w' := worlds[n - 1], events[n - 1], worlds[n];
      EntryFrom(hash, ttl, w, n - 1, e, w', key);
      if Carried(w, w', key) {
        OriginTookEffect(hash, ttl, events, worlds, n - 1, key);
      } else {
        assert StoredNow(hash, ttl, w, n - 1, e, w', key);
        assert w'.origin[key] == n - 1;
      }
    }
  }

  /** Every entry of the token was asked for after the numbered step. */
  ghost predicate AskedSince(hash: string -> string, events: seq<Event>, w: World, token: string, last: nat)
  {
    forall audience, now :: Live(w.entries, CacheKey(hash, token, audience), now) ==>
      var key := CacheKey(hash, token, audience);
      key in w.origin && w.origin[key] < |events| && events[w.origin[key]].Store? && events[w.origin[key]].asked > last
  }

  /** A lookup of the token that was in flight across the numbered step, and took effect. */
  ghost predicate Crosses(hash: string -> string, events: seq<Event>, worlds: seq<World>,
                          token: string, last: nat, i: nat)
    requires |worlds| == |events| + 1 && i < |events|
  {
    && last < i && events[i].Store? && events[i].token == token && events[i].asked <= last
    && !Live(worlds[i].entries, CacheKey(hash, token, events[i].audience), events[i].now)
  }

  lemma NoneCrossed(hash: string -> string, ttl: int, events: seq<Event>, worlds: seq<World>,
                    token: string, last: nat, n: nat)
    requires IsRun(hash, ttl, events, worlds) && FixedLength(hash) && NoCollision(hash, events, token)
    requires last < n < |worlds| && events[last] == Invalidate(token)
    requires forall i: nat :: last < i < n ==> !Crosses(hash, events, worlds, token, last, i)
    ensures AskedSince(hash, events, worlds[n], token, last)
  {
    forall audience, now | Live(worlds[n].entries, CacheKey(hash, token, audience), now)
      ensures var key := CacheKey(hash, token, audience);
              && key in worlds[n].origin && worlds[n].origin[key] < n
              && events[worlds[n].origin[key]].Store? && events[worlds[n].origin[key]].asked > last
    {
      var key := CacheKey(hash, token, audience);
      OriginTookEffect(hash, ttl, events, worlds, n, key);
      var i := worlds[n].origin[key];
      PrefixMeaning(hash, token, token, audience);
      SameKey(hash, token, audience, events[i].token, events[i].audience);
      assert last < i;
      assert !Crosses(hash, events, worlds, token, last, i);
    }
  }

  lemma OneCrossed(hash: string -> string, ttl: int, events: seq<Event>, worlds: seq<World>,
                   token: string, last: nat, i: nat)
    requires IsRun(hash, ttl, events, worlds) && i < |events| && Crosses(hash, events, worlds, token, last, i)
    ensures !AskedSince(hash, events, worlds[i + 1], token, last)
  {
    var e, key := events[i], CacheKey(hash, token, events[i].audience);
    assert Step(hash, ttl, worlds[i], i, e, worlds[i + 1]);
    assert worlds[i + 1].entries[key] == Entry(e.now + Life(e, ttl), e.answer) && worlds[i + 1].origin[key] == i;
    assert Live(worlds[i + 1].entries, key, e.now + Life(e, ttl) - 1);
  }

  /** From an invalidation on, up to any later point, every hit was asked for after the
      invalidation, if and only if no lookup of the token that was in flight across it took
      effect. */
  lemma AskedSinceIff(hash: string -> string, ttl: int, events: seq<Event>, worlds: seq<World>,
                      token: string, last: nat, until: nat)
    requires IsRun(hash, ttl, events, worlds) && FixedLength(hash) && NoCollision(hash, events, token)
    requires last < until < |worlds| && events[last] == Invalidate(token)
    ensures (forall n: nat :: last < n <= until ==> AskedSince(hash, events, worlds[n], token, last))
            <==> forall i: nat :: last < i < until ==> !Crosses(hash, events, worlds, token, last, i)
  {
    if forall i: nat :: last < i < until ==> !Crosses(hash, events, worlds, token, last, i) {
      forall n: nat | last < n <= until
        ensures AskedSince(hash, events, worlds[n], token, last)
      {
        NoneCrossed(hash, ttl, events, worlds, token, last, n);
      }
    } else {
      var i: nat :| last < i < until && Crosses(hash, events, worlds, token, last, i);
      OneCrossed(hash, ttl, events, worlds, token, last, i);
    }
  }

  /** Right after an invalidation no audience has a live entry of the token: the next lookup
      goes to the server. */
  lemma InvalidatedMisses(hash: string -> string, es: Entries, token: string, audience: string, now: int)
    ensures !Live(Invalidated(es, hash(token)), CacheKey(hash, token, audience), now)
  {
    assert CacheKey(hash, token, audience)[..|hash(token)| + 1] == hash(token) + ":";
  }

  lemma SameKey(hash: string -> string, a: string, x: string, b: string, y: string)
    requires FixedLength(hash) && CacheKey(hash, a, x) == CacheKey(hash, b, y)
    ensures hash(a) == hash(b) && x == y
  {
    var k := CacheKey(hash, a, x);
    assert k[..64] == hash(a) && CacheKey(hash, b, y)[..64] == hash(b);
    assert k[65..] == x && CacheKey(hash, b, y)[65..] == y;
  }

  /** Invalidation leaves every other token's entries alone. */
  lemma OthersKept(hash: string -> string, es: Entries, token: string, other: string, audience: string)
    requires FixedLength(hash) && hash(other) != hash(token)
    ensures var key := CacheKey(hash, other, audience);
            key in es ==> key in Invalidated(es, hash(token)) && Invalidated(es, hash(token))[key] == es[key]
  {
    PrefixMeaning(hash, token, other, audience);
  }
}
