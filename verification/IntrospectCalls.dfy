/**
 Runs of calls on the introspection cache: which answer a lookup gives without asking the
 server, and when it asks again.
 */
module IntrospectCalls {
  import opened Options
  import opened Introspect

  /** Calls one after the other on an empty cache, with the replies and the entries between
      them. */
  ghost predicate IsCallRun(hash: string -> string, ttl: int, calls: seq<Call>, replies: seq<Reply>,
                            entries: seq<Entries>)
  {
    && |replies| == |calls| && |entries| == |calls| + 1 && entries[0] == map[]
    && forall i :: 0 <= i < |calls| ==> Serves(hash, ttl, entries[i], calls[i], replies[i], entries[i + 1])
  }

  function Events(calls: seq<Call>, replies: seq<Reply>): (es: seq<Event>)
    requires |replies| == |calls|
    ensures |es| == |calls| && forall i :: 0 <= i < |calls| ==> es[i] == EventOf(calls[i], replies[i], i)
  {
    seq(|calls|, i requires 0 <= i < |calls| => EventOf(calls[i], replies[i], i))
  }

  /** A run of calls is a run of steps. */
  lemma {:induction false} CallsAreSteps(hash: string -> string, ttl: int, calls: seq<Call>, replies: seq<Reply>,
                                         entries: seq<Entries>, n: nat)
    returns (worlds: seq<World>)
    requires IsCallRun(hash, ttl, calls, replies, entries) && n <= |calls|
    ensures IsRun(hash, ttl, Events(calls, replies)[..n], worlds)
    ensures |worlds| == n + 1 && forall i :: 0 <= i <= n ==> worlds[i].entries == entries[i]
  {
    if n == 0 {
      worlds := [World(map[], map[])];
    } else {
      var before := CallsAreSteps(hash, ttl, calls, replies, entries, n - 1);
      var w, e := before[n - 1], Events(calls, replies)[n - 1];
      assert Serves(hash, ttl, entries[n - 1], calls[n - 1], replies[n - 1], entries[n]);
      assert Takes(hash, ttl, w, n - 1, calls[n - 1], replies[n - 1], entries[n]);
      worlds := before + [World(entries[n], OriginAfter(hash, w, n - 1, e))];
      assert forall i :: 0 <= i < n - 1 ==> Events(calls, replies)[..n][i] == Events(calls, replies)[..n - 1][i];
    }
  }

  /** No token of the run shares the hash of another one. */
  ghost predicate Apart(hash: string -> string, calls: seq<Call>, token: string)
  {
    forall i :: 0 <= i < |calls| && hash(calls[i].token) == hash(token) ==> calls[i].token == token
  }

  /** The i-th call asked the server for the token and audience of the n-th, which was answered
      from the cache: with the same answer, before its lifetime was over, and with no
      invalidation of the token in between. */
  ghost predicate Backs(calls: seq<Call>, replies: seq<Reply>, ttl: int, i: int, n: int)
    requires |replies| == |calls| && 0 <= i < n < |calls|
  {
    var c, d := calls[i], calls[n];
    && c.Lookup? && d.Lookup? && c.token == d.token && c.audience == d.audience
    && replies[i].asked && c.fetched.Some? && replies[n].answer == Some(c.fetched.value.0)
    && (if c.fetched.value.1 > 0 then d.probe < c.stored + c.fetched.value.1 else d.probe < c.stored + ttl)
    && forall j :: i < j < n ==> calls[j] != Drop(d.token)
  }

  /** A lookup that does not ask the server gives an answer that the server gave to an earlier
      one, and whose own lifetime is not over. */
  lemma AnsweredInTime(hash: string -> string, ttl: int, calls: seq<Call>, replies: seq<Reply>,
                       entries: seq<Entries>, n: nat)
    requires IsCallRun(hash, ttl, calls, replies, entries) && FixedLength(hash) && n < |calls|
    requires calls[n].Lookup? && !replies[n].asked && Apart(hash, calls, calls[n].token)
    ensures exists i :: 0 <= i < n && Backs(calls, replies, ttl, i, n)
  {
    var worlds := CallsAreSteps(hash, ttl, calls, replies, entries, n);
    var events, c := Events(calls, replies)[..n], calls[n];
    assert Serves(hash, ttl, entries[n], c, replies[n], entries[n + 1]);
    HitsAreCurrent(hash, ttl, events, worlds, n, c.token, c.audience, c.probe);
    var i :| 0 <= i < n && events[i].Store? && events[i].token == c.token && events[i].audience == c.audience
             && worlds[n].entries[CacheKey(hash, c.token, c.audience)].result == events[i].answer
             && c.probe < events[i].now + (if events[i].life > 0 then events[i].life else ttl)
             && forall j :: i < j < n && events[j].Invalidate? ==> events[j].token != c.token;
    assert events[i] == EventOf(calls[i], replies[i], i);
    forall j | i < j < n
      ensures calls[j] != Drop(c.token)
    {
      assert events[j] == EventOf(calls[j], replies[j], j);
    }
    assert Backs(calls, replies, ttl, i, n);
  }

  // ---------------------------------------------------------------- how long an answer is kept

  /** The step leaves an entry that ends at `end` alone: it invalidates another token, or stores
      before that end into a cache with room. */
  ghost predicate Spares(hash: string -> string, token: string, end: int, w: World, e: Event)
  {
    match e
    case Look(_) => true
    case Invalidate(other) => hash(other) != hash(token)
    case Store(_, _, _, _, now, _) => now < end && |w.entries| < MAX_ENTRIES
  }

  lemma SparedStays(hash: string -> string, ttl: int, w: World, n: nat, e: Event, w': World, token: string,
                    audience: string, end: int)
    requires FixedLength(hash) && Step(hash, ttl, w, n, e, w') && Spares(hash, token, end, w, e)
    requires var key := CacheKey(hash, token, audience); key in w.entries && w.entries[key].expiresAt == end
    ensures var key := CacheKey(hash, token, audience); key in w'.entries && w'.entries[key] == w.entries[key]
  {
    if e.Invalidate? {
      PrefixMeaning(hash, e.token, token, audience);
    }
  }

  /** The store of number i took effect: no live entry was in its way. */
  ghost predicate TookEffect(hash: string -> string, events: seq<Event>, worlds: seq<World>, i: int)
    requires |worlds| == |events| + 1 && 0 <= i < |events|
  {
    events[i].Store? && !Live(worlds[i].entries, CacheKey(hash, events[i].token, events[i].audience), events[i].now)
  }

  /** An answer that was stored stays for its own lifetime, or the configured one when it gave
      none, as long as every step spares it. */
  lemma {:induction false} KeptForItsLife(hash: string -> string, ttl: int, events: seq<Event>, worlds: seq<World>,
                                          i: nat, n: nat)
    requires IsRun(hash, ttl, events, worlds) && FixedLength(hash) && i < n < |worlds|
    requires TookEffect(hash, events, worlds, i)
    requires var e := events[i];
             var end := e.now + (if e.life > 0 then e.life else ttl);
             forall j :: i < j < n ==> Spares(hash, e.token, end, worlds[j], events[j])
    ensures var e := events[i];
            var key := CacheKey(hash, e.token, e.audience);
            && key in worlds[n].entries
            && worlds[n].entries[key] == Entry(e.now + (if e.life > 0 then e.life else ttl), e.answer)
    decreases n
  {
    var e := events[i];
    if n == i + 1 {
      assert Step(hash, ttl, worlds[i], i, e, worlds[n]);
    } else {
      KeptForItsLife(hash, ttl, events, worlds, i, n - 1);
      var end := e.now + (if e.life > 0 then e.life else ttl);
      SparedStays(hash, ttl, worlds[n - 1], n - 1, events[n - 1], worlds[n], e.token, e.audience, end);
    }
  }

  /** So of the calls that follow an answered lookup, while there is room and nobody invalidates
      the token, a lookup of the same token and audience asks the server again if and only if
      the lifetime of that answer is over. */
  lemma AsksAgainIff(hash: string -> string, ttl: int, calls: seq<Call>, replies: seq<Reply>, entries: seq<Entries>,
                     i: nat, n: nat)
    requires IsCallRun(hash, ttl, calls, replies, entries) && FixedLength(hash) && i < n < |calls|
    requires calls[i].Lookup? && replies[i].asked && calls[i].fetched.Some? && calls[i].probe <= calls[i].stored
    requires calls[n].Lookup? && calls[n].token == calls[i].token && calls[n].audience == calls[i].audience
    requires var life := calls[i].fetched.value.1;
             var end := calls[i].stored + (if life > 0 then life else ttl);
             forall j :: i < j < n ==>
               Spares(hash, calls[i].token, end, World(entries[j], map[]), EventOf(calls[j], replies[j], j))
    ensures var life := calls[i].fetched.value.1;
            replies[n].asked <==> calls[n].probe >= calls[i].stored + (if life > 0 then life else ttl)
  {
    var worlds := CallsAreSteps(hash, ttl, calls, replies, entries, n);
    var events := Events(calls, replies)[..n];
    assert events[i] == EventOf(calls[i], replies[i], i);
    assert Serves(hash, ttl, entries[i], calls[i], replies[i], entries[i + 1]);
    assert Serves(hash, ttl, entries[n], calls[n], replies[n], entries[n + 1]);
    assert TookEffect(hash, events, worlds, i);
    var e := events[i];
    var end := e.now + (if e.life > 0 then e.life else ttl);
    forall j | i < j < n
      ensures Spares(hash, e.token, end, worlds[j], events[j])
    {
      assert events[j] == EventOf(calls[j], replies[j], j);
    }
    KeptForItsLife(hash, ttl, events, worlds, i, n);
  }
}
