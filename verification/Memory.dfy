/**
 The in-process cache and rate limiter. `entries` and `buckets` are updated in place;
 expired entries linger until they are touched or the map is full. The clock reading of
 each call is a parameter.
 */
module Memory {
  import opened Options
  import Arithmetic
  import Orders
  import opened TtlMap
  import TB = TokenBucket

  const DEFAULT_MAX_ENTRIES: nat := 100_000

  /** What happened to the other buckets: nothing, apart from idle ones that were swept
      and at most one that was dropped to make room. */
  ghost predicate Swept(before: map<string, TB.Bucket>, after: map<string, TB.Bucket>, key: string, now: int,
                        dropped: Option<string>)
  {
    && (forall k :: k in after && k != key ==> k in before && after[k] == before[k])
    && (forall k :: k in before && k !in after && dropped != Some(k) ==> now - before[k].last >= before[k].window)
  }

  /** The bucket as a call finds it: refilled, or fresh when there is none. */
  ghost function Level(bs: map<string, TB.Bucket>, key: string, limit: int, window: int, now: int): TB.Bucket
    requires limit > 0 && window > 0
  {
    if key in bs then TB.Refill(bs[key], limit, window, now) else TB.Fresh(limit, window, now)
  }

  class Memory {
    const max: nat
    var entries: Store
    var buckets: map<string, TB.Bucket>

    ghost predicate Valid()
      reads this
    {
      max > 0 && |entries| <= max && |buckets| <= max
    }

    /** A bound of zero or less keeps the default. */
    constructor (maxEntries: int)
      ensures Valid() && max == (if maxEntries > 0 then maxEntries else 100_000)
      ensures entries == map[] && buckets == map[]
    {
      max := if maxEntries > 0 then maxEntries else DEFAULT_MAX_ENTRIES;
      entries, buckets := map[], map[];
    }

    // -------------------------------------------------------------- cache

    /** The live entry of a key; an expired one is removed on the way. */
    method LiveEntry(key: string, now: int) returns (e: Option<Entry>)
      requires Valid()
      modifies this`entries
      ensures Valid()
      ensures e == Lookup(View(old(entries), now), key)
      ensures View(entries, now) == View(old(entries), now)
      ensures e.None? ==> key !in entries
    {
      if key !in entries {
        return None;
      }
      if !Live(entries[key], now) {
        ghost var before := entries;
        entries := entries - {key};
        assert entries.Keys == before.Keys - {key};
        return None;
      }
      return Some(entries[key]);
    }

    method SweepEntries(now: int)
      requires Valid()
      modifies this`entries
      ensures Valid() && entries == View(old(entries), now)
    {
      var todo := entries.Keys;
      ghost var before := entries;
      while todo != {}
        invariant todo <= entries.Keys <= before.Keys
        invariant forall k :: k in entries ==> entries[k] == before[k]
        invariant forall k :: k in before ==> (k in entries <==> k in todo || Live(before[k], now))
        invariant |entries| <= max
        decreases |todo|
      {
        var k :| k in todo;
        todo := todo - {k};
        if !Live(entries[k], now) {
          ghost var keys := entries.Keys;
          entries := entries - {k};
          assert entries.Keys == keys - {k};
        }
      }
    }

    /** Drops the entry closest to expiry, in whatever order the map is walked. */
    method EvictSoonest() returns (ghost victim: string)
      requires Valid() && entries != map[]
      modifies this`entries
      ensures Soonest(old(entries), victim) && entries == old(entries) - {victim}
      ensures |entries| == |old(entries)| - 1
    {
      var todo := entries.Keys;
      var pick, best, found := "", 0, false;
      while todo != {}
        invariant todo <= entries.Keys
        invariant found <==> todo != entries.Keys
        invariant found ==> pick in entries && best == Rank(entries[pick])
        invariant found ==> forall k :: k in entries && k !in todo ==> best <= Rank(entries[k])
        decreases |todo|
      {
        var k :| k in todo;
        todo := todo - {k};
        var exp := Rank(entries[k]);
        if !found || exp < best {
          pick, best, found := k, exp, true;
        }
      }
      assert found;
      victim := pick;
      ghost var keys := entries.Keys;
      entries := entries - {pick};
      assert entries.Keys == keys - {pick};
    }

    method Put(key: string, e: Entry, now: int)
      requires Valid() && Live(e, now)
      modifies this`entries
      ensures Valid()
      ensures PutSpec(max, View(old(entries), now), View(entries, now), key, e)
    {
      ghost var v := View(entries, now);
      ghost var before := entries;
      ViewSize(before, now);
      if key !in entries && |entries| >= max {
        SweepEntries(now);
        assert entries == v && View(v, now) == v;
        if |entries| >= max {
          ghost var victim := EvictSoonest();
          Store(key, e, now);
          return;
        }
      }
      Store(key, e, now);
    }

    /** The plain map update. */
    method Store(key: string, e: Entry, now: int)
      requires max > 0 && |entries| <= max && Live(e, now) && (key in entries || |entries| < max)
      modifies this`entries
      ensures |entries| <= max
      ensures entries == old(entries)[key := e]
      ensures View(entries, now) == View(old(entries), now)[key := e]
    {
      ghost var keys := entries.Keys;
      entries := entries[key := e];
      assert entries.Keys == keys + {key};
    }

    method Get(key: string, now: int) returns (value: string, ok: bool)
      requires Valid()
      modifies this`entries
      ensures Valid() && View(entries, now) == View(old(entries), now)
      ensures var e := Lookup(View(old(entries), now), key);
              ok == e.Some? && (ok ==> value == e.value.value)
      ensures Effect(max, View(old(entries), now), Op.Get(key), now, View(entries, now))
    {
      var e := LiveEntry(key, now);
      if e.None? {
        return "", false;
      }
      return e.value.value, true;
    }

    method Set(key: string, value: string, ttl: int, now: int)
      requires Valid()
      modifies this`entries
      ensures Valid()
      ensures PutSpec(max, View(old(entries), now), View(entries, now), key, Stored(now, value, ttl))
      ensures Effect(max, View(old(entries), now), Op.Set(key, value, ttl), now, View(entries, now))
    {
      Put(key, Stored(now, value, ttl), now);
    }

    method SetNX(key: string, value: string, ttl: int, now: int) returns (stored: bool)
      requires Valid()
      modifies this`entries
      ensures Valid()
      ensures stored <==> Lookup(View(old(entries), now), key).None?
      ensures if stored then PutSpec(max, View(old(entries), now), View(entries, now), key, Stored(now, value, ttl))
              else View(entries, now) == View(old(entries), now)
      ensures Effect(max, View(old(entries), now), Op.SetNX(key, value, ttl), now, View(entries, now))
    {
      var e := LiveEntry(key, now);
      if e.Some? {
        return false;
      }
      Put(key, Stored(now, value, ttl), now);
      return true;
    }

    method Delete(key: string, now: int)
      requires Valid()
      modifies this`entries
      ensures Valid() && View(entries, now) == View(old(entries), now) - {key}
      ensures Effect(max, View(old(entries), now), Op.Delete(key), now, View(entries, now))
    {
      ghost var before := entries;
      entries := entries - {key};
      assert entries.Keys == before.Keys - {key};
    }

    method Incr(key: string, ttl: int, now: int) returns (n: int)
      requires Valid()
      modifies this`entries
      ensures Valid()
      ensures var v := View(old(entries), now);
              n == Counted(v, key, now, ttl).n && PutSpec(max, v, View(entries, now), key, Counted(v, key, now, ttl))
      ensures Effect(max, View(old(entries), now), Op.Incr(key, ttl), now, View(entries, now))
    {
      var e := LiveEntry(key, now);
      if e.Some? {
        var c := e.value.(n := e.value.n + 1);
        Store(key, c, now);
        return c.n;
      }
      Put(key, Entry("", 1, ExpiryOf(now, ttl)), now);
      return 1;
    }

    /** Records a one-time identifier and reports whether it was already recorded. */
    method Seen(key: string, ttl: int, now: int) returns (already: bool)
      requires Valid()
      modifies this`entries
      ensures Valid()
      ensures already <==> Lookup(View(old(entries), now), key).Some?
      ensures if already then View(entries, now) == View(old(entries), now)
              else PutSpec(max, View(old(entries), now), View(entries, now), key, Stored(now, "\U{1}", ttl))
      ensures Effect(max, View(old(entries), now), Op.SetNX(key, "\U{1}", ttl), now, View(entries, now))
    {
      var stored := SetNX(key, "\U{1}", ttl, now);
      return !stored;
    }

    // -------------------------------------------------------------- token buckets

    method SweepBuckets(now: int)
      requires Valid()
      modifies this`buckets
      ensures Valid() && buckets.Keys <= old(buckets).Keys
      ensures forall k :: k in buckets ==> buckets[k] == old(buckets)[k]
      ensures forall k :: k in old(buckets) ==> (k in buckets <==> now - old(buckets)[k].last < old(buckets)[k].window)
    {
      var todo := buckets.Keys;
      ghost var before := buckets;
      while todo != {}
        invariant todo <= buckets.Keys <= before.Keys
        invariant forall k :: k in buckets ==> buckets[k] == before[k]
        invariant forall k :: k in before ==> (k in buckets <==> k in todo || now - before[k].last < before[k].window)
        invariant |buckets| <= max
        decreases |todo|
      {
        var k :| k in todo;
        todo := todo - {k};
        if now - buckets[k].last >= buckets[k].window {
          ghost var keys := buckets.Keys;
          buckets := buckets - {k};
          assert buckets.Keys == keys - {k};
        }
      }
    }

    /** Makes room for one more bucket: idle ones go first, then an arbitrary one. */
    method MakeRoom(now: int) returns (ghost dropped: Option<string>)
      requires Valid()
      modifies this`buckets
      ensures |buckets| < max && Swept(old(buckets), buckets, "", now, dropped)
      ensures forall k :: k in buckets ==> k in old(buckets) && buckets[k] == old(buckets)[k]
      ensures dropped.Some? ==>
                && |old(buckets)| == max
                && forall k :: k in old(buckets) ==> now - old(buckets)[k].last < old(buckets)[k].window
    {
      dropped := None;
      if |buckets| >= max {
        ghost var before := buckets;
        SweepBuckets(now);
        if |buckets| >= max {
          Shrunk(before, buckets, max);
          var k :| k in buckets.Keys;
          dropped := Some(k);
          ghost var keys := buckets.Keys;
          buckets := buckets - {k};
          assert buckets.Keys == keys - {k};
        }
      }
    }

    method Allow(key: string, limit: int, window: int, now: int) returns (d: TB.Decision, ghost dropped: Option<string>)
      requires Valid()
      modifies this`buckets
      ensures Valid()
      ensures limit <= 0 || window <= 0 ==> d == TB.Decision(true, 0, 0) && buckets == old(buckets)
      ensures limit > 0 && window > 0 ==>
                && key in buckets
                && (buckets[key], d) == TB.Take(Level(old(buckets), key, limit, window, now), limit, window)
                && Swept(old(buckets), buckets, key, now, dropped)
      ensures dropped.Some? ==> key !in old(buckets) && |old(buckets)| == max
      ensures IsStep(old(buckets), Step(key, limit, window, now, d.allowed, buckets, dropped))
    {
      dropped := None;
      if limit <= 0 || window <= 0 {
        return TB.Decision(true, 0, 0), None;
      }
      var b;
      if key in buckets {
        b := buckets[key];
      } else {
        dropped := MakeRoom(now);
        b := TB.Fresh(limit, window, now);
      }
      var (b', d') := TB.Call(b, limit, window, now);
      d := d';
      ghost var keys := buckets.Keys;
      buckets := buckets[key := b'];
      assert buckets.Keys == keys + {key};
    }
  }

  lemma Shrunk(before: map<string, TB.Bucket>, after: map<string, TB.Bucket>, max: nat)
    requires after.Keys <= before.Keys && |before| <= max <= |after|
    ensures after.Keys == before.Keys
  {
    Orders.SubsetSize(after.Keys, before.Keys);
    assert |after| == |after.Keys| && |before| == |before.Keys|;
  }

  // ---------------------------------------------------------------- runs of Allow

  /** One call on the shared limiter and the buckets it leaves. */
  datatype Step = Step(key: string, limit: int, window: int, now: int, allowed: bool,
                       after: map<string, TB.Bucket>, dropped: Option<string>)

  /** What `Allow` ensures of one call. */
  ghost predicate IsStep(before: map<string, TB.Bucket>, s: Step)
  {
    if s.limit <= 0 || s.window <= 0 then s.allowed && s.after == before
    else
      var (b, d) := TB.Take(Level(before, s.key, s.limit, s.window, s.now), s.limit, s.window);
      && s.key in s.after && s.after[s.key] == b && s.allowed == d.allowed
      && Swept(before, s.after, s.key, s.now, s.dropped)
  }

  ghost function Last(before: map<string, TB.Bucket>, steps: seq<Step>): map<string, TB.Bucket>
  {
    if steps == [] then before else steps[|steps| - 1].after
  }

  /** A run of calls with any keys and policies, on a clock that never goes back. */
  ghost predicate IsRun(before: map<string, TB.Bucket>, steps: seq<Step>)
  {
    steps == [] ||
    var n := |steps| - 1;
    && IsRun(before, steps[..n])
    && IsStep(Last(before, steps[..n]), steps[n])
    && (n > 0 ==> steps[n - 1].now <= steps[n].now)
  }

  /** The times and the decisions of the calls on one key. */
  ghost function Own(steps: seq<Step>, key: string): (seq<int>, seq<bool>)
  {
    if steps == [] then ([], [])
    else
      var n := |steps| - 1;
      var (ts, ds) := Own(steps[..n], key);
      if steps[n].key == key then (ts + [steps[n].now], ds + [steps[n].allowed]) else (ts, ds)
  }

  /** Every call on the key uses this policy, and it is never the one dropped. */
  ghost predicate Steady(steps: seq<Step>, key: string, limit: int, window: int)
  {
    forall i :: 0 <= i < |steps| ==>
      && steps[i].dropped != Some(key)
      && (steps[i].key == key ==> steps[i].limit == limit && steps[i].window == window)
  }

  /** The stored bucket is b, or it was swept away while b was as good as full. */
  ghost predicate Stands(bs: map<string, TB.Bucket>, key: string, b: TB.Bucket, limit: int, window: int, now: int)
  {
    && TB.Good(b, limit) && b.last <= now && b.window == window
    && if key in bs then bs[key] == b else b.tokens == limit as real || now - b.last >= window
  }

  lemma StandsLevel(bs: map<string, TB.Bucket>, key: string, b: TB.Bucket, limit: int, window: int,
                    now: int, later: int)
    requires limit > 0 && window > 0 && Stands(bs, key, b, limit, window, now) && now <= later
    ensures Level(bs, key, limit, window, later) == TB.Refill(b, limit, window, later)
  {
    if key !in bs {
      if b.tokens == limit as real {
        TB.EarnedAdds(later - b.last, 0, limit, window);
      } else {
        TB.IdleIsFresh(b, limit, window, now, later);
      }
    }
  }

  lemma StandsAfter(bs: map<string, TB.Bucket>, key: string, b: TB.Bucket, limit: int, window: int, now: int, s: Step)
    requires limit > 0 && window > 0 && Stands(bs, key, b, limit, window, now) && now <= s.now
    requires IsStep(bs, s) && s.dropped != Some(key) && (s.key == key ==> s.limit == limit && s.window == window)
    ensures s.key != key ==> Stands(s.after, key, b, limit, window, s.now)
    ensures s.key == key ==> var (b', d) := TB.Call(b, limit, window, s.now);
                             d.allowed == s.allowed && Stands(s.after, key, b', limit, window, s.now)
  {
    if s.key == key {
      StandsLevel(bs, key, b, limit, window, now, s.now);
      TB.CallSpends(b, limit, window, s.now);
    }
  }

  /** On the shared limiter, whatever other keys do and whenever idle buckets are swept,
      the decisions for one key are those of a bucket of its own. */
  lemma {:induction false} KeyRunsAlone(bs: map<string, TB.Bucket>, steps: seq<Step>, key: string,
                                        limit: int, window: int, b0: TB.Bucket, start: int)
    requires limit > 0 && window > 0 && Stands(bs, key, b0, limit, window, start)
    requires IsRun(bs, steps) && Steady(steps, key, limit, window)
    requires steps != [] ==> start <= steps[0].now
    ensures var (b, ds) := TB.Run(b0, limit, window, Own(steps, key).0);
            && ds == Own(steps, key).1
            && Stands(Last(bs, steps), key, b, limit, window, if steps == [] then start else steps[|steps| - 1].now)
    decreases |steps|
  {
    if steps != [] {
      var n := |steps| - 1;
      KeyRunsAlone(bs, steps[..n], key, limit, window, b0, start);
      var (ts, ds) := Own(steps[..n], key);
      var (b, _) := TB.Run(b0, limit, window, ts);
      StandsAfter(Last(bs, steps[..n]), key, b, limit, window, if n == 0 then start else steps[n - 1].now, steps[n]);
      if steps[n].key == key {
        assert (ts + [steps[n].now])[..|ts|] == ts;
      }
    }
  }

  lemma {:induction false} RunSplits(bs: map<string, TB.Bucket>, steps: seq<Step>, i: nat)
    requires IsRun(bs, steps) && i <= |steps|
    ensures IsRun(bs, steps[..i]) && IsRun(Last(bs, steps[..i]), steps[i..])
    decreases |steps|
  {
    if i == |steps| {
      assert steps[..i] == steps && steps[i..] == [];
    } else {
      var n := |steps| - 1;
      RunSplits(bs, steps[..n], i);
      assert steps[..n][..i] == steps[..i] && steps[i..][..n - i] == steps[..n][i..];
    }
  }

  lemma {:induction false} OwnOrdered(bs: map<string, TB.Bucket>, steps: seq<Step>, key: string)
    requires IsRun(bs, steps) && steps != []
    ensures steps[0].now <= steps[|steps| - 1].now
    ensures Arithmetic.Ascending(Own(steps, key).0)
    ensures forall t :: t in Own(steps, key).0 ==> steps[0].now <= t <= steps[|steps| - 1].now
    decreases |steps|
  {
    var n := |steps| - 1;
    var ts := Own(steps[..n], key).0;
    if n > 0 {
      OwnOrdered(bs, steps[..n], key);
      assert steps[..n][0] == steps[0] && steps[..n][n - 1] == steps[n - 1];
      assert forall j :: 0 <= j < |ts| ==> ts[j] in ts;
    } else {
      assert steps[..n] == [];
    }
  }

  lemma StretchBound(bs: map<string, TB.Bucket>, steps: seq<Step>, key: string, limit: int, window: int,
                     b: TB.Bucket, start: int)
    requires limit > 0 && window > 0 && Stands(bs, key, b, limit, window, start)
    requires IsRun(bs, steps) && Steady(steps, key, limit, window)
    requires Own(steps, key).0 != [] && start <= steps[0].now
    ensures var (ts, ds) := Own(steps, key);
            TB.Admitted(ds) as real <= limit as real + TB.Earned(ts[|ts| - 1] - ts[0], limit, window)
  {
    KeyRunsAlone(bs, steps, key, limit, window, b, start);
    OwnOrdered(bs, steps, key);
    var ts := Own(steps, key).0;
    assert ts[0] in ts;
    TB.AdmissionBound(b, limit, window, ts);
  }

  lemma {:induction false} StepsOrdered(bs: map<string, TB.Bucket>, steps: seq<Step>, i: nat)
    requires IsRun(bs, steps) && 0 < i < |steps|
    ensures steps[i - 1].now <= steps[i].now
    decreases |steps|
  {
    if i < |steps| - 1 {
      StepsOrdered(bs, steps[..|steps| - 1], i);
    }
  }

  /** In every reachable state some bucket stands for the key. */
  lemma ReachedBucket(steps: seq<Step>, key: string, limit: int, window: int, start: int) returns (b: TB.Bucket)
    requires limit > 0 && window > 0 && IsRun(map[], steps) && Steady(steps, key, limit, window)
    requires steps != [] ==> start <= steps[0].now
    ensures Stands(Last(map[], steps), key, b, limit, window, if steps == [] then start else steps[|steps| - 1].now)
  {
    var b0 := TB.Fresh(limit, window, start);
    KeyRunsAlone(map[], steps, key, limit, window, b0, start);
    b := TB.Run(b0, limit, window, Own(steps, key).0).0;
  }

  lemma ReachedBefore(steps: seq<Step>, key: string, limit: int, window: int, i: nat) returns (b: TB.Bucket, from: int)
    requires limit > 0 && window > 0 && IsRun(map[], steps) && Steady(steps, key, limit, window) && i < |steps|
    ensures Stands(Last(map[], steps[..i]), key, b, limit, window, from) && from <= steps[i].now
  {
    RunSplits(map[], steps, i);
    b := ReachedBucket(steps[..i], key, limit, window, steps[0].now);
    from := if i == 0 then steps[0].now else steps[i - 1].now;
    if i > 0 {
      StepsOrdered(map[], steps, i);
    }
  }

  /** Safety over whole runs of the shared limiter: between any two points of a run, the
      calls admitted on a key are at most limit plus what its bucket earns meanwhile. */
  lemma SharedAdmissionBound(steps: seq<Step>, key: string, limit: int, window: int, i: nat)
    requires limit > 0 && window > 0 && IsRun(map[], steps) && Steady(steps, key, limit, window) && i < |steps|
    requires Own(steps[i..], key).0 != []
    ensures var (ts, ds) := Own(steps[i..], key);
            TB.Admitted(ds) as real <= limit as real + TB.Earned(ts[|ts| - 1] - ts[0], limit, window)
  {
    RunSplits(map[], steps, i);
    var b, from := ReachedBefore(steps, key, limit, window, i);
    StretchBound(Last(map[], steps[..i]), steps[i..], key, limit, window, b, from);
  }
}
