/**
 What a reader of the cache sees, told by the operations before: the last write of the key
 until it expires, and nothing where nothing was written.
 */
module CacheLaws {
  import opened Options
  import opened TtlMap

  /** Operation k leaves the key alone: it reads, or works on another key in a cache with room. */
  ghost predicate Spares(max: nat, ops: seq<Timed>, views: seq<Store>, key: string, k: int)
    requires |views| == |ops| + 1 && 0 <= k < |ops|
  {
    ops[k].op.Get? || (ops[k].op.key != key && |View(views[k], ops[k].now)| < max)
  }

  /** What a reader sees of an entry at some time. */
  function Visible(e: Option<Entry>, now: int): Option<Entry>
  {
    if e.Some? && Live(e.value, now) then e else None
  }

  lemma VisibleIs(v: Store, key: string, now: int)
    ensures Lookup(View(v, now), key) == Visible(Lookup(v, key), now)
  {
  }

  /** A key that is left alone keeps its entry. */
  lemma {:induction false} Kept(max: nat, ops: seq<Timed>, views: seq<Store>, i: nat, j: nat, key: string, now: int)
    requires IsCacheRun(max, ops, views) && i <= j <= |ops|
    requires forall k :: i <= k < j ==> Spares(max, ops, views, key, k) && ops[k].now <= now
    ensures Lookup(View(views[j], now), key) == Visible(Lookup(views[i], key), now)
    decreases j
  {
    VisibleIs(views[j], key, now);
    if i < j {
      var k := j - 1;
      var v, at := View(views[k], ops[k].now), ops[k].now;
      forall m | i <= m < k
        ensures ops[m].now <= at
      {
        RisingTimes(max, ops, views, m, k);
      }
      Kept(max, ops, views, i, k, key, at);
      assert Effect(max, v, ops[k].op, at, views[j]);
      assert Spares(max, ops, views, key, k);
      if !ops[k].op.Get? {
        EffectFrames(max, v, ops[k].op, at, views[j], key);
      }
      assert Lookup(views[j], key) == Lookup(v, key);
    }
  }

  lemma {:induction false} RisingTimes(max: nat, ops: seq<Timed>, views: seq<Store>, i: nat, j: nat)
    requires IsCacheRun(max, ops, views) && i <= j < |ops|
    ensures ops[i].now <= ops[j].now
    decreases j
  {
    if i < j {
      RisingTimes(max, ops, views, i, j - 1);
    }
  }

  /** The key holds what operation i wrote: a set always writes, and a set-if-absent writes when
      nothing is there. */
  ghost predicate Writes(ops: seq<Timed>, views: seq<Store>, i: int, key: string, value: string, ttl: int)
    requires |views| == |ops| + 1 && 0 <= i < |ops|
  {
    || ops[i].op == Op.Set(key, value, ttl)
    || (ops[i].op == Op.SetNX(key, value, ttl) && key !in View(views[i], ops[i].now))
  }

  /** Last write: while the key is left alone, a reader sees the value that was written, until
      its lifetime is over; without a lifetime it stays for ever. */
  lemma ReadsLastWrite(max: nat, ops: seq<Timed>, views: seq<Store>, i: nat, j: nat,
                       key: string, value: string, ttl: int, now: int)
    requires IsCacheRun(max, ops, views) && i < j <= |ops| && ops[i].now <= now
    requires Writes(ops, views, i, key, value, ttl)
    requires forall k :: i < k < j ==> Spares(max, ops, views, key, k) && ops[k].now <= now
    ensures var e := Lookup(View(views[j], now), key);
            && (e.Some? <==> ttl <= 0 || now < ops[i].now + ttl)
            && (e.Some? ==> e.value.value == value && e.value.n == 0)
  {
    var v, t := View(views[i], ops[i].now), ops[i].now;
    assert Effect(max, v, ops[i].op, t, views[i + 1]);
    assert PutSpec(max, v, views[i + 1], key, Stored(t, value, ttl));
    assert Lookup(views[i + 1], key) == Some(Stored(t, value, ttl));
    Kept(max, ops, views, i + 1, j, key, now);
  }

  /** A deleted key, and one that was never written, is absent as long as it is left alone. */
  lemma ReadsNothing(max: nat, ops: seq<Timed>, views: seq<Store>, i: nat, j: nat, key: string, now: int)
    requires IsCacheRun(max, ops, views) && i <= j <= |ops|
    requires i == 0 || ops[i - 1].op == Op.Delete(key)
    requires forall k :: i <= k < j ==> Spares(max, ops, views, key, k) && ops[k].now <= now
    ensures Lookup(View(views[j], now), key).None?
  {
    if i > 0 {
      assert Effect(max, View(views[i - 1], ops[i - 1].now), ops[i - 1].op, ops[i - 1].now, views[i]);
    }
    Kept(max, ops, views, i, j, key, now);
  }

  /** An increment adds one to what a reader sees, keeps its lifetime, and starts at one where
      nothing is seen. */
  lemma CountsUp(max: nat, ops: seq<Timed>, views: seq<Store>, i: nat, key: string, ttl: int)
    requires IsCacheRun(max, ops, views) && i < |ops| && ops[i].op == Op.Incr(key, ttl)
    ensures var before, t := Lookup(View(views[i], ops[i].now), key), ops[i].now;
            var after := Lookup(views[i + 1], key);
            && after.Some?
            && (before.Some? ==> after.value == before.value.(n := before.value.n + 1))
            && (before.None? ==> after.value.n == 1
                                 && after.value.expires == if ttl <= 0 then Never else At(t + ttl))
  {
    var v, t := View(views[i], ops[i].now), ops[i].now;
    assert Effect(max, v, ops[i].op, t, views[i + 1]);
    assert PutSpec(max, v, views[i + 1], key, Counted(v, key, t, ttl));
  }

  /** An entry that a put pushes out of a full cache expires no later than any that stays; one
      that never expires goes only when nothing else expires before Unix second 2^40. */
  lemma EvictsEarliest(max: nat, v: Store, v': Store, key: string, e: Entry, gone: string, k: string)
    requires PutSpec(max, v, v', key, e) && gone in v && gone !in v' && k in v
    requires v[k].expires.At? && v[k].expires.t < 0x100_0000_0000 * 1_000_000_000
    ensures key !in v && |v| >= max && v[gone].expires.At? && v[gone].expires.t <= v[k].expires.t
    ensures forall o :: o in v && o != gone ==> o in v' && v'[o] == v[o]
  {
    var victim :| Soonest(v, victim) && v' == (v - {victim})[key := e];
    assert victim == gone;
  }
}
