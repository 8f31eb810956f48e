/**
 The contract of the cache: a map with a time to live per key. Time is an integer number
 of nanoseconds. A store may still hold expired entries; its `View` at a time is what
 callers can observe.
 */
module TtlMap {
  import opened Options
  import Orders

  datatype Expiry = Never | At(t: int)

  datatype Entry = Entry(value: string, n: int, expires: Expiry)

  type Store = map<string, Entry>

  predicate Live(e: Entry, now: int) { e.expires.Never? || now < e.expires.t }

  function View(m: Store, now: int): (v: Store)
    ensures forall k :: k in v <==> k in m && Live(m[k], now)
    ensures forall k :: k in v ==> v[k] == m[k]
  {
    map k | k in m && Live(m[k], now) :: m[k]
  }

  /** Entries without a positive lifetime stay for ever. */
  function ExpiryOf(now: int, ttl: int): Expiry { if ttl <= 0 then Never else At(now + ttl) }

  function Lookup(v: Store, key: string): Option<Entry> { if key in v then Some(v[key]) else None }

  // ---------------------------------------------------------------- operations

  function Stored(now: int, value: string, ttl: int): Entry { Entry(value, 0, ExpiryOf(now, ttl)) }

  /** The counter entry after an increment: the old expiry is kept. */
  function Counted(v: Store, key: string, now: int, ttl: int): Entry
  {
    if key in v then v[key].(n := v[key].n + 1) else Entry("", 1, ExpiryOf(now, ttl))
  }

  /** Order of eviction; entries that never expire rank at Unix second 2^40. */
  const FAR: int := 0x100_0000_0000 * 1_000_000_000

  function Rank(e: Entry): int { match e.expires case Never => FAR case At(t) => t }

  ghost predicate Soonest(v: Store, k: string)
  {
    k in v && forall j :: j in v ==> Rank(v[k]) <= Rank(v[j])
  }

  /** The effect of storing e in a cache of bounded size: the plain map update, after
      removing one entry with the earliest expiry when a new key meets a full cache. */
  ghost predicate PutSpec(max: nat, v: Store, v': Store, key: string, e: Entry)
  {
    if key in v || |v| < max then v' == v[key := e]
    else exists victim :: Soonest(v, victim) && v' == (v - {victim})[key := e]
  }

  /** The operations of the cache. */
  datatype Op =
    | Get(key: string)
    | Set(key: string, value: string, ttl: int)
    | SetNX(key: string, value: string, ttl: int)
    | Delete(key: string)
    | Incr(key: string, ttl: int)

  /** What an operation at time `now` does to the observable entries of a bounded cache. */
  ghost predicate Effect(max: nat, v: Store, op: Op, now: int, v': Store)
  {
    match op
    case Get(_) => v' == v
    case Set(key, value, ttl) => PutSpec(max, v, v', key, Stored(now, value, ttl))
    case SetNX(key, value, ttl) => if key in v then v' == v else PutSpec(max, v, v', key, Stored(now, value, ttl))
    case Delete(key) => v' == v - {key}
    case Incr(key, ttl) => PutSpec(max, v, v', key, Counted(v, key, now, ttl))
  }

  /** What an operation does to an unbounded store. */
  function Plain(s: Store, op: Op, now: int): Store
  {
    match op
    case Get(_) => s
    case Set(key, value, ttl) => s[key := Stored(now, value, ttl)]
    case SetNX(key, value, ttl) => if key in View(s, now) then s else s[key := Stored(now, value, ttl)]
    case Delete(key) => s - {key}
    case Incr(key, ttl) => s[key := Counted(View(s, now), key, now, ttl)]
  }

  /** How many entries an operation may add. */
  function Adds(op: Op): nat { if op.Get? || op.Delete? then 0 else 1 }

  datatype Timed = Timed(op: Op, now: int)

  /** A run of operations, with what can be observed after each. */
  ghost predicate IsCacheRun(max: nat, ops: seq<Timed>, views: seq<Store>)
  {
    && |views| == |ops| + 1 && views[0] == map[]
    && (forall i :: 0 <= i < |ops| ==>
          Effect(max, View(views[i], ops[i].now), ops[i].op, ops[i].now, views[i + 1]))
    && forall i :: 0 < i < |ops| ==> ops[i - 1].now <= ops[i].now
  }

  // ---------------------------------------------------------------- laws

  /** What can be seen later is determined by what can be seen now. */
  lemma ViewLater(m: Store, now: int, later: int)
    requires now <= later
    ensures View(m, later) == View(View(m, now), later)
  {
  }

  /** A put on one key leaves every other key alone, except one victim. */
  lemma PutFrames(max: nat, v: Store, v': Store, key: string, e: Entry, other: string)
    requires PutSpec(max, v, v', key, e) && other != key
    ensures Lookup(v', other) == Lookup(v, other) || (Lookup(v', other).None? && Soonest(v, other) && |v| >= max)
    ensures Lookup(v', key) == Some(e)
  {
  }

  /** An operation leaves every other key alone, except that a full cache may lose one entry
      of earliest expiry. */
  lemma EffectFrames(max: nat, v: Store, op: Op, now: int, v': Store, other: string)
    requires Effect(max, v, op, now, v') && op.key != other
    ensures Lookup(v', other) == Lookup(v, other) || (Lookup(v', other).None? && Soonest(v, other) && |v| >= max)
  {
    match op
    case Get(_) =>
    case Set(key, value, ttl) => PutFrames(max, v, v', key, Stored(now, value, ttl), other);
    case SetNX(key, value, ttl) =>
      if key !in v { PutFrames(max, v, v', key, Stored(now, value, ttl), other); }
    case Delete(_) =>
    case Incr(key, ttl) => PutFrames(max, v, v', key, Counted(v, key, now, ttl), other);
  }

  lemma ViewSize(m: Store, now: int)
    ensures |View(m, now)| <= |m|
    ensures |View(m, now)| == |m| ==> View(m, now) == m
    ensures forall k :: k in m && k !in View(m, now) ==> |View(m, now)| < |m|
  {
    var v := View(m, now);
    Orders.SubsetSize(v.Keys, m.Keys);
    assert |v| == |v.Keys| && |m| == |m.Keys|;
  }

  lemma SizeAfter(v: Store, k: string, e: Entry)
    requires k !in v
    ensures |v[k := e]| == |v| + 1
  {
    assert v[k := e].Keys == v.Keys + {k};
    assert |v[k := e].Keys| == |v[k := e]| && |v.Keys| == |v|;
  }

  lemma SizeWithout(v: Store, k: string)
    requires k in v
    ensures |v - {k}| == |v| - 1
  {
    assert (v - {k}).Keys == v.Keys - {k};
    assert |(v - {k}).Keys| == |v - {k}| && |v.Keys| == |v|;
  }

  lemma PutSize(max: nat, v: Store, v': Store, key: string, e: Entry)
    requires max > 0 && |v| <= max && PutSpec(max, v, v', key, e)
    ensures |v'| <= max
  {
    if key in v {
      assert v'.Keys == v.Keys && |v.Keys| == |v| && |v'.Keys| == |v'|;
    } else if |v| < max {
      SizeAfter(v, key, e);
    } else {
      var victim :| Soonest(v, victim) && v' == (v - {victim})[key := e];
      SizeWithout(v, victim);
      SizeAfter(v - {victim}, key, e);
    }
  }

  /** No operation exceeds the bound. */
  lemma EffectSize(max: nat, v: Store, op: Op, now: int, v': Store)
    requires max > 0 && |v| <= max && Effect(max, v, op, now, v')
    ensures |v'| <= max
  {
    match op
    case Get(_) =>
    case Set(key, value, ttl) => PutSize(max, v, v', key, Stored(now, value, ttl));
    case SetNX(key, value, ttl) =>
      if key !in v { PutSize(max, v, v', key, Stored(now, value, ttl)); }
    case Delete(key) =>
      Orders.SubsetSize(v'.Keys, v.Keys);
      assert |v'.Keys| == |v'| && |v.Keys| == |v|;
    case Incr(key, ttl) => PutSize(max, v, v', key, Counted(v, key, now, ttl));
  }

  lemma PutRoom(max: nat, s: Store, v': Store, key: string, e: Entry, now: int)
    requires PutSpec(max, View(s, now), v', key, e) && |View(s, now)| < max && Live(e, now)
    ensures v' == View(s[key := e], now) && |v'| <= |View(s, now)| + 1
  {
    var v := View(s, now);
    if key in v {
      assert v'.Keys == v.Keys && |v.Keys| == |v| && |v'.Keys| == |v'|;
    } else {
      SizeAfter(v, key, e);
    }
  }

  lemma DropRoom(s: Store, key: string, now: int)
    ensures View(s, now) - {key} == View(s - {key}, now) && |View(s, now) - {key}| <= |View(s, now)|
  {
    if key in View(s, now) {
      SizeWithout(View(s, now), key);
    } else {
      assert View(s, now) - {key} == View(s, now);
    }
  }

  /** While there is room, what can be observed of the bounded cache is what can be observed of
      an unbounded store. */
  lemma RoomIsPlain(max: nat, s: Store, op: Op, now: int, v': Store)
    requires Effect(max, View(s, now), op, now, v') && |View(s, now)| + Adds(op) <= max
    ensures v' == View(Plain(s, op, now), now) && |v'| <= |View(s, now)| + Adds(op)
  {
    var v := View(s, now);
    match op
    case Get(_) =>
    case Set(key, value, ttl) => PutRoom(max, s, v', key, Stored(now, value, ttl), now);
    case SetNX(key, value, ttl) =>
      if key !in v { PutRoom(max, s, v', key, Stored(now, value, ttl), now); }
    case Delete(key) => DropRoom(s, key, now);
    case Incr(key, ttl) => PutRoom(max, s, v', key, Counted(v, key, now, ttl), now);
  }
}
