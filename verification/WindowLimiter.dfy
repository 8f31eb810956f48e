/**
 Fixed windows. A counter whose expiry is set by its first increment splits the calls on
 a key into windows; this file says which calls open one, and what follows for the
 fixed-window rate limiter built on the cache's counter.
 */
module FixedWindows {
  import opened Arithmetic
  import opened Options
  import Orders
  import opened TtlMap

  /** The call that opened the window of call i: call i itself when the last window has
      run out, otherwise the opener of the call before. */
  function Opener(times: seq<int>, w: int, i: nat): (s: nat)
    requires i < |times|
    ensures s <= i
  {
    if i == 0 then 0
    else
      var s := Opener(times, w, i - 1);
      if times[i] < times[s] + w then s else i
  }

  lemma {:induction false} OpenerOfOpener(times: seq<int>, w: int, i: nat)
    requires i < |times|
    ensures Opener(times, w, Opener(times, w, i)) == Opener(times, w, i)
  {
    if i > 0 {
      OpenerOfOpener(times, w, i - 1);
    }
  }

  lemma {:induction false} OpenerMonotone(times: seq<int>, w: int, i: nat, j: nat)
    requires i <= j < |times|
    ensures Opener(times, w, i) <= Opener(times, w, j)
    ensures Opener(times, w, i) == i ==> i <= Opener(times, w, j)
  {
    if i < j {
      OpenerMonotone(times, w, i, j - 1);
    }
  }

  /** Windows do not overlap: two openers are at least a window apart. */
  lemma OpenersApart(times: seq<int>, w: int, s: nat, s': nat)
    requires Ascending(times) && w > 0 && s < s' < |times|
    requires Opener(times, w, s) == s && Opener(times, w, s') == s'
    ensures times[s] + w <= times[s']
  {
    OpenerMonotone(times, w, s, s' - 1);
    var o := Opener(times, w, s' - 1);
    assert s <= o;
    assert times[s] <= times[o];
  }

  /** A call lies in the window its opener started. */
  lemma InsideWindow(times: seq<int>, w: int, i: nat)
    requires Ascending(times) && w > 0 && i < |times|
    ensures times[Opener(times, w, i)] <= times[i] < times[Opener(times, w, i)] + w
  {
  }

  // ---------------------------------------------------------------- the counter

  /** The counter entry after the given increments. */
  function Counter(times: seq<int>, w: int): Option<Entry>
  {
    if times == [] then None
    else
      var n := |times| - 1;
      var before := Counter(times[..n], w);
      if before.Some? && Live(before.value, times[n]) then Some(before.value.(n := before.value.n + 1))
      else Some(Entry("", 1, ExpiryOf(times[n], w)))
  }

  lemma {:induction false} OpenerOfPrefix(times: seq<int>, w: int, i: nat, m: nat)
    requires i < m <= |times|
    ensures Opener(times[..m], w, i) == Opener(times, w, i)
  {
    if i > 0 {
      OpenerOfPrefix(times, w, i - 1, m);
    }
  }

  /** The counter holds the position of the last call in its window, and expires when that
      window ends. */
  lemma {:induction false} CounterMeaning(times: seq<int>, w: int)
    requires w > 0 && times != []
    ensures var n := |times| - 1; var s := Opener(times, w, n);
            Counter(times, w) == Some(Entry("", n - s + 1, At(times[s] + w)))
    decreases |times|
  {
    var n := |times| - 1;
    if n > 0 {
      CounterMeaning(times[..n], w);
      OpenerOfPrefix(times, w, n - 1, n);
    } else {
      assert times[..0] == [];
    }
  }

  /** An increment on the cache moves the key's entry as `Counter` does. */
  lemma IncrementMoves(max: nat, v: Store, v': Store, key: string, now: int, w: int, times: seq<int>)
    requires PutSpec(max, v, v', key, Counted(v, key, now, w))
    requires w > 0
    requires Lookup(v, key) == (var c := Counter(times, w); if c.Some? && Live(c.value, now) then c else None)
    ensures Lookup(v', key) == Counter(times + [now], w)
  {
    assert (times + [now])[..|times|] == times;
  }

  // ---------------------------------------------------------------- admission

  /** Call i is admitted: it is among the first `limit` calls of its window. */
  predicate Admits(times: seq<int>, w: int, limit: int, i: nat)
    requires i < |times|
  {
    i - Opener(times, w, i) < limit
  }

  /** The calls admitted in the half-open span of length w that starts at a. */
  ghost function AdmittedIn(times: seq<int>, w: int, limit: int, a: int): set<nat>
  {
    set i: nat | i < |times| && a <= times[i] < a + w && Admits(times, w, limit, i)
  }

  ghost function Range(lo: nat, n: nat): (r: set<nat>)
    ensures forall i :: i in r <==> lo <= i < lo + n
    ensures |r| == n
  {
    if n == 0 then {} else Range(lo, n - 1) + {lo + n - 1}
  }

  /** The calls of one span come from at most two windows. */
  lemma TwoWindows(times: seq<int>, w: int, a: int, i: nat, j: nat, k: nat)
    requires Ascending(times) && w > 0 && i < |times| && j < |times| && k < |times|
    requires a <= times[i] < a + w && a <= times[j] < a + w && a <= times[k] < a + w
    requires Opener(times, w, i) < Opener(times, w, j)
    ensures Opener(times, w, k) == Opener(times, w, i) || Opener(times, w, k) == Opener(times, w, j)
  {
    var oi, oj, ok := Opener(times, w, i), Opener(times, w, j), Opener(times, w, k);
    OpenerOfOpener(times, w, i);
    OpenerOfOpener(times, w, j);
    OpenerOfOpener(times, w, k);
    if ok != oi && ok != oj {
      // Three windows would put two openers, a window apart, strictly inside the span.
      if ok < oi {
        Between(times, w, k, oi, oj, j);
      } else if ok < oj {
        Between(times, w, i, ok, oj, j);
      } else {
        Between(times, w, i, oj, ok, k);
      }
    }
  }

  lemma Between(times: seq<int>, w: int, i: nat, s: nat, s': nat, j: nat)
    requires Ascending(times) && w > 0 && i < |times| && s < s' < |times| && j < |times|
    requires Opener(times, w, s) == s && Opener(times, w, s') == s'
    requires Opener(times, w, i) < s && Opener(times, w, j) == s'
    ensures times[i] + w <= times[j]
  {
    if s <= i {
      OpenerMonotone(times, w, s, i);
    }
    assert i < s && times[i] <= times[s];
    OpenersApart(times, w, s, s');
    InsideWindow(times, w, j);
  }

  /** When a span meets two windows, the opener of the first lies before the span. */
  lemma FirstOpenerBefore(times: seq<int>, w: int, a: int, i: nat, j: nat)
    requires Ascending(times) && w > 0 && i < |times| && j < |times|
    requires times[j] < a + w && Opener(times, w, i) < Opener(times, w, j)
    ensures times[Opener(times, w, i)] < a
  {
    OpenerOfOpener(times, w, i);
    OpenerOfOpener(times, w, j);
    OpenersApart(times, w, Opener(times, w, i), Opener(times, w, j));
    InsideWindow(times, w, j);
  }

  lemma PairBound(times: seq<int>, w: int, limit: nat, a: int, i: nat, j: nat)
    requires Ascending(times) && w > 0 && limit > 0
    requires i in AdmittedIn(times, w, limit, a) && j in AdmittedIn(times, w, limit, a)
    requires Opener(times, w, i) < Opener(times, w, j)
    ensures |AdmittedIn(times, w, limit, a)| <= 2 * limit - 1
  {
    var s, o, o' := AdmittedIn(times, w, limit, a), Opener(times, w, i), Opener(times, w, j);
    var first, second := Range(o + 1, limit - 1), Range(o', limit);
    forall k | k in s
      ensures k in first + second
    {
      TwoWindows(times, w, a, i, j, k);
      FirstOpenerBefore(times, w, a, i, j);
    }
    Orders.SubsetSize(s, first + second);
    assert |first + second| <= |first| + |second|;
  }

  lemma SpansTwo(times: seq<int>, w: int, a: int, i: nat, j: nat)
    requires Ascending(times) && w > 0 && i < |times| && j < |times|
    requires a <= times[i] && times[j] < a + w && Opener(times, w, i) < Opener(times, w, j)
    ensures w > 1
  {
    OpenerOfOpener(times, w, i);
    OpenerOfOpener(times, w, j);
    OpenersApart(times, w, Opener(times, w, i), Opener(times, w, j));
    InsideWindow(times, w, i);
    InsideWindow(times, w, j);
  }

  /** The most calls that a half-open span of one window length can admit: a span of one
      nanosecond lies within one window. */
  function SpanLimit(w: int, limit: nat): int { if w > 1 then 2 * limit - 1 else limit }

  /** Every half-open span of one window length admits fewer than twice the limit. */
  lemma SpanBound(times: seq<int>, w: int, limit: nat, a: int)
    requires Ascending(times) && w > 0 && limit > 0
    ensures |AdmittedIn(times, w, limit, a)| <= SpanLimit(w, limit) <= 2 * limit - 1
  {
    var s := AdmittedIn(times, w, limit, a);
    if s != {} {
      var i :| i in s;
      var o := Opener(times, w, i);
      if j :| j in s && Opener(times, w, j) != o {
        if o < Opener(times, w, j) {
          PairBound(times, w, limit, a, i, j);
          SpansTwo(times, w, a, i, j);
        } else {
          PairBound(times, w, limit, a, j, i);
          SpansTwo(times, w, a, j, i);
        }
      } else {
        assert forall k :: k in s ==> k in Range(o, limit);
        Orders.SubsetSize(s, Range(o, limit));
      }
    }
  }

  /** Within one window exactly the first `limit` calls are admitted. */
  lemma WindowAdmitsFirst(times: seq<int>, w: int, limit: nat, s: nat, i: nat)
    requires w > 0 && s <= i < |times| && Opener(times, w, i) == s
    ensures Admits(times, w, limit, i) <==> i < s + limit
    ensures Counter(times[..i + 1], w).Some? && (Counter(times[..i + 1], w).value.n <= limit <==> i < s + limit)
  {
    CounterMeaning(times[..i + 1], w);
    OpenerOfPrefix(times, w, i, i + 1);
  }

  /** One call opens a window, the rest of its budget comes at its last instant, and a
      full budget follows in the next. */
  function BoundaryRun(w: int, limit: nat): (times: seq<int>)
    ensures |times| == 2 * limit
    ensures forall i :: 0 <= i < |times| ==> times[i] == if i == 0 then 0 else if i < limit then w - 1 else w
  {
    seq(2 * limit, i => if i == 0 then 0 else if i < limit then w - 1 else w)
  }

  lemma {:induction false} BoundaryOpener(w: int, limit: nat, i: nat)
    requires w > 0 && limit > 0 && i < 2 * limit
    ensures Opener(BoundaryRun(w, limit), w, i) == if i < limit then 0 else limit
  {
    if i > 0 {
      BoundaryOpener(w, limit, i - 1);
    }
  }

  /** The bound is reached, across a window boundary if there is one in the span. */
  lemma SpanBoundReached(w: int, limit: nat)
    requires w > 0 && limit > 0
    ensures Ascending(BoundaryRun(w, limit))
    ensures |AdmittedIn(BoundaryRun(w, limit), w, limit, w - 1)| == SpanLimit(w, limit)
  {
    var times := BoundaryRun(w, limit);
    var r := if w > 1 then Range(1, 2 * limit - 1) else Range(0, limit);
    forall i: nat | i < |times|
      ensures i in AdmittedIn(times, w, limit, w - 1) <==> i in r
    {
      BoundaryOpener(w, limit, i);
    }
    assert AdmittedIn(times, w, limit, w - 1) == r;
  }
}

module WindowLimiter {
  import opened Arithmetic
  import opened Options
  import opened TtlMap
  import opened Memory
  import opened FixedWindows
  import TB = TokenBucket

  const MAX_INT32 := 0x7fff_ffff

  class WindowLimiter {
    const cache: Memory
    const prefix: string

    constructor (cache: Memory, prefix: string)
      ensures this.cache == cache && this.prefix == prefix
    {
      this.cache, this.prefix := cache, prefix;
    }

    /** One unit for a key under a budget of `limit` per window: counts the call on the
        cache and refuses it once the count exceeds the limit. */
    method Allow(key: string, limit: int, window: int, now: int) returns (d: TB.Decision)
      requires cache.Valid()
      modifies cache`entries
      ensures cache.Valid()
      ensures limit <= 0 || window <= 0 ==> d == TB.Decision(true, 0, 0) && cache.entries == old(cache.entries)
      ensures limit > 0 && window > 0 ==>
                var v := View(old(cache.entries), now);
                var c := Counted(v, prefix + key, now, window);
                && PutSpec(cache.max, v, View(cache.entries, now), prefix + key, c)
                && (d.allowed <==> c.n <= limit)
                && (d.allowed ==> d.retryAfter == 0 && d.remaining <= MAX_INT32
                                  && (|| d.remaining == limit - c.n
                                      || (d.remaining == MAX_INT32 && limit - c.n > MAX_INT32)))
                && (!d.allowed ==> d.retryAfter == window)
      ensures limit > 0 && window > 0 ==>
                forall t :: t <= now ==>
                  CacheStep(cache.max, View(old(cache.entries), t), prefix + key, limit, window,
                         Event(true, now, d.allowed, View(cache.entries, now)))
    {
      forall t | t <= now
        ensures View(View(cache.entries, t), now) == View(cache.entries, now)
      {
        ViewLater(cache.entries, t, now);
      }
      if limit <= 0 || window <= 0 {
        return TB.Decision(true, 0, 0);
      }
      var n := cache.Incr(prefix + key, window, now);
      if n > limit {
        return TB.Decision(false, 0, window);
      }
      var remaining := limit - n;
      if remaining > MAX_INT32 {
        remaining := MAX_INT32;
      }
      return TB.Decision(true, remaining, 0);
    }
  }

  // ---------------------------------------------------------------- runs on a shared cache

  /** What happens on the cache as the limiter's key sees it: one of its calls, or any
      other operation, after which the observable entries are `after`. */
  datatype Event = Event(own: bool, now: int, allowed: bool, after: Store)

  /** A call counts; anything else leaves the key alone, that is, it does not evict it. */
  ghost predicate CacheStep(max: nat, before: Store, key: string, limit: int, w: int, e: Event)
  {
    var v := View(before, e.now);
    if e.own
    then && PutSpec(max, v, e.after, key, Counted(v, key, e.now, w))
         && (e.allowed <==> Counted(v, key, e.now, w).n <= limit)
    else Lookup(e.after, key) == Lookup(v, key)
  }

  ghost function After(events: seq<Event>): Store { if events == [] then map[] else events[|events| - 1].after }

  ghost predicate IsRun(max: nat, key: string, limit: int, w: int, events: seq<Event>)
  {
    events == [] ||
    var n := |events| - 1;
    && IsRun(max, key, limit, w, events[..n])
    && CacheStep(max, After(events[..n]), key, limit, w, events[n])
    && (n > 0 ==> events[n - 1].now <= events[n].now)
  }

  /** Times and decisions of the limiter's calls. */
  ghost function Calls(events: seq<Event>): (seq<int>, seq<bool>)
  {
    if events == [] then ([], [])
    else
      var n := |events| - 1;
      var (ts, ds) := Calls(events[..n]);
      if events[n].own then (ts + [events[n].now], ds + [events[n].allowed]) else (ts, ds)
  }

  /** The key's entry is the counter of its calls, unless that has expired. */
  ghost predicate Tracks(v: Store, key: string, times: seq<int>, w: int, now: int)
  {
    Lookup(View(v, now), key) == var c := Counter(times, w); if c.Some? && Live(c.value, now) then c else None
  }

  lemma TracksLater(v: Store, key: string, times: seq<int>, w: int, now: int, later: int)
    requires Tracks(v, key, times, w, now) && now <= later
    ensures Tracks(v, key, times, w, later)
  {
    assert key in View(v, later) ==> key in View(v, now);
  }

  lemma StepTracks(max: nat, before: Store, key: string, limit: int, w: int, e: Event, times: seq<int>)
    requires w > 0 && Tracks(before, key, times, w, e.now) && CacheStep(max, before, key, limit, w, e)
    ensures e.own ==> Tracks(e.after, key, times + [e.now], w, e.now)
                      && Counter(times + [e.now], w).Some?
                      && (e.allowed <==> Counter(times + [e.now], w).value.n <= limit)
    ensures !e.own ==> Tracks(e.after, key, times, w, e.now)
  {
    var v := View(before, e.now);
    if e.own {
      IncrementMoves(max, v, e.after, key, e.now, w, times);
    }
  }

  lemma {:induction false} CallsOrdered(max: nat, key: string, limit: int, w: int, events: seq<Event>)
    requires IsRun(max, key, limit, w, events)
    ensures var (ts, ds) := Calls(events);
            && |ts| == |ds| && Ascending(ts)
            && forall i :: 0 <= i < |ts| ==> events != [] && ts[i] <= events[|events| - 1].now
    decreases |events|
  {
    if events != [] {
      CallsOrdered(max, key, limit, w, events[..|events| - 1]);
    }
  }

  /** The key's entry before the last event of a run. */
  lemma {:induction false} TracksBeforeLast(max: nat, key: string, limit: int, w: int, events: seq<Event>)
    requires w > 0 && IsRun(max, key, limit, w, events) && events != []
    ensures var n := |events| - 1;
            Tracks(After(events[..n]), key, Calls(events[..n]).0, w, events[n].now)
    decreases |events|
  {
    var n := |events| - 1;
    if n == 0 {
      assert events[..n] == [];
    } else {
      var before := events[..n];
      var m := n - 1;
      assert before[..m] == events[..m] && before[m] == events[m];
      TracksBeforeLast(max, key, limit, w, before);
      StepTracks(max, After(before[..m]), key, limit, w, before[m], Calls(before[..m]).0);
      TracksLater(After(before), key, Calls(before).0, w, before[m].now, events[n].now);
    }
  }

  ghost predicate Agrees(ts: seq<int>, ds: seq<bool>, w: int, limit: int)
  {
    |ts| == |ds| && forall i: nat :: i < |ts| ==> (ds[i] <==> Admits(ts, w, limit, i))
  }

  /** On a shared cache, whatever happens to other keys, a call is admitted exactly when it
      is among the first `limit` calls of its window. */
  lemma {:induction false} AdmitsFirstOfWindow(max: nat, key: string, limit: int, w: int, events: seq<Event>)
    requires w > 0 && limit > 0 && IsRun(max, key, limit, w, events)
    ensures Agrees(Calls(events).0, Calls(events).1, w, limit)
    decreases |events|
  {
    if events != [] {
      var n := |events| - 1;
      AdmitsFirstOfWindow(max, key, limit, w, events[..n]);
      var (ts, ds) := Calls(events[..n]);
      TracksBeforeLast(max, key, limit, w, events);
      StepTracks(max, After(events[..n]), key, limit, w, events[n], ts);
      if events[n].own {
        ExtendRun(ts, ds, events[n].now, events[n].allowed, w, limit);
      }
    }
  }

  /** In any run on a shared cache, any half-open span of one window length admits at most
      2*limit - 1 calls on the key, and just `limit` when the window is one nanosecond. */
  lemma LimiterSpanBound(max: nat, key: string, limit: int, w: int, events: seq<Event>, a: int)
    requires w > 0 && limit > 0 && IsRun(max, key, limit, w, events)
    ensures var (ts, ds) := Calls(events);
            |ts| == |ds| && |set i: nat | i < |ts| && a <= ts[i] < a + w && ds[i]| <= SpanLimit(w, limit)
  {
    var (ts, ds) := Calls(events);
    CallsOrdered(max, key, limit, w, events);
    AdmitsFirstOfWindow(max, key, limit, w, events);
    assert (set i: nat | i < |ts| && a <= ts[i] < a + w && ds[i]) == AdmittedIn(ts, w, limit, a);
    SpanBound(ts, w, limit, a);
  }

  // ---------------------------------------------------------------- runs of cache operations

  /** A cache operation on another key is a foreign step, unless it evicts the key. */
  lemma ForeignCacheStep(max: nat, v: Store, op: Op, now: int, v': Store, key: string, limit: int, w: int)
    requires Effect(max, View(v, now), op, now, v') && op.key != key
    requires key in View(v, now) ==> key in v'
    ensures CacheStep(max, v, key, limit, w, Event(false, now, false, v'))
  {
    EffectFrames(max, View(v, now), op, now, v', key);
  }

  /** The run as the key sees it: an increment of the key is a call of the limiter. */
  ghost function Watched(ops: seq<Timed>, views: seq<Store>, key: string, limit: int, w: int): (events: seq<Event>)
    requires |views| == |ops| + 1
    ensures |events| == |ops|
  {
    seq(|ops|, i requires 0 <= i < |ops| =>
      var now := ops[i].now;
      Event(ops[i].op.key == key, now,
            ops[i].op.key == key && Counted(View(views[i], now), key, now, w).n <= limit, views[i + 1]))
  }

  /** Only the limiter works on the key, and no operation evicts it. */
  ghost predicate Undisturbed(ops: seq<Timed>, views: seq<Store>, key: string, w: int)
    requires |views| == |ops| + 1
  {
    && (forall i :: 0 <= i < |ops| && ops[i].op.key == key ==> ops[i].op == Incr(key, w))
    && forall i :: 0 <= i < |ops| && key in View(views[i], ops[i].now) ==> key in views[i + 1]
  }

  lemma {:induction false} WatchedIsRun(max: nat, ops: seq<Timed>, views: seq<Store>, key: string,
                                        limit: int, w: int, n: nat)
    requires IsCacheRun(max, ops, views) && Undisturbed(ops, views, key, w) && n <= |ops|
    ensures IsRun(max, key, limit, w, Watched(ops, views, key, limit, w)[..n])
    ensures After(Watched(ops, views, key, limit, w)[..n]) == views[n]
  {
    var events := Watched(ops, views, key, limit, w);
    if n > 0 {
      var k := n - 1;
      WatchedIsRun(max, ops, views, key, limit, w, k);
      assert events[..n][..k] == events[..k];
      assert Effect(max, View(views[k], ops[k].now), ops[k].op, ops[k].now, views[n]);
      if ops[k].op.key != key {
        ForeignCacheStep(max, views[k], ops[k].op, ops[k].now, views[n], key, limit, w);
      }
      assert k > 0 ==> ops[k - 1].now <= ops[k].now;
    }
  }

  /** In any run of operations on the shared cache, whatever they do to other keys, a half-open
      span of one window length admits at most 2*limit - 1 calls on a key that is not evicted. */
  lemma SharedCacheSpanBound(max: nat, ops: seq<Timed>, views: seq<Store>, key: string, limit: int, w: int, a: int)
    requires w > 0 && limit > 0 && IsCacheRun(max, ops, views) && Undisturbed(ops, views, key, w)
    ensures var (ts, ds) := Calls(Watched(ops, views, key, limit, w));
            |ts| == |ds| && |set i: nat | i < |ts| && a <= ts[i] < a + w && ds[i]| <= SpanLimit(w, limit)
  {
    var events := Watched(ops, views, key, limit, w);
    WatchedIsRun(max, ops, views, key, limit, w, |ops|);
    assert events[..|ops|] == events;
    LimiterSpanBound(max, key, limit, w, events, a);
  }

  lemma ExtendRun(ts: seq<int>, ds: seq<bool>, now: int, allowed: bool, w: int, limit: int)
    requires w > 0 && Agrees(ts, ds, w, limit)
    requires Counter(ts + [now], w).Some? && (allowed <==> Counter(ts + [now], w).value.n <= limit)
    ensures Agrees(ts + [now], ds + [allowed], w, limit)
  {
    var ts' := ts + [now];
    CounterMeaning(ts', w);
    forall i: nat | i < |ts|
      ensures Opener(ts', w, i) == Opener(ts, w, i)
    {
      assert ts'[..|ts|] == ts;
      OpenerOfPrefix(ts', w, i, |ts|);
    }
  }
}
