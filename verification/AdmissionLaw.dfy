/**
 When the token bucket admits a call, told by the times and decisions of the calls before it:
 no stretch that ends with the call may take more than the capacity and what is earned over
 it. On the shared limiter the same law holds for every key by itself.
 */
module AdmissionLaw {
  import opened Arithmetic
  import opened TokenBucket
  import Memory

  /** What is left of the capacity and the earnings of the stretch from call i to call n, before
      call n. */
  ghost function Left(limit: int, window: int, times: seq<int>, ds: seq<bool>, i: int, n: int): real
    requires limit > 0 && window > 0 && 0 <= i <= n < |times| && n <= |ds|
  {
    limit as real + Earned(times[n] - times[i], limit, window) - Admitted(ds[i..n]) as real
  }

  /** Every stretch that ends with call n leaves a token for it. */
  ghost predicate Fits(limit: int, window: int, times: seq<int>, ds: seq<bool>, n: int)
    requires limit > 0 && window > 0 && 0 <= n < |times| && n <= |ds|
  {
    forall i :: 0 <= i <= n ==>
      Admitted(ds[i..n]) as real + 1.0 <= limit as real + Earned(times[n] - times[i], limit, window)
  }

  // ---------------------------------------------------------------- the level of the bucket

  /** The level is the least that any stretch leaves. */
  ghost predicate IsLeast(limit: int, window: int, times: seq<int>, ds: seq<bool>, n: int, level: real)
    requires limit > 0 && window > 0 && 0 <= n < |times| && n <= |ds|
  {
    && (forall i :: 0 <= i <= n ==> level <= Left(limit, window, times, ds, i, n))
    && exists i :: 0 <= i <= n && level == Left(limit, window, times, ds, i, n)
  }

  lemma LeftSnoc(limit: int, window: int, times: seq<int>, ds: seq<bool>, i: int, n: int)
    requires limit > 0 && window > 0 && 0 <= i < n < |times| && n <= |ds|
    ensures Left(limit, window, times, ds, i, n)
            == Left(limit, window, times, ds, i, n - 1) - Spent(ds[n - 1])
               + Earned(times[n] - times[n - 1], limit, window)
  {
    assert ds[i..n] == ds[i..n - 1] + [ds[n - 1]];
    AdmittedSnoc(ds[i..n - 1], ds[n - 1]);
    EarnedAdds(times[n - 1] - times[i], times[n] - times[n - 1], limit, window);
  }

  lemma LeftAlone(limit: int, window: int, times: seq<int>, ds: seq<bool>, n: int)
    requires limit > 0 && window > 0 && 0 <= n < |times| && n <= |ds|
    ensures Left(limit, window, times, ds, n, n) == limit as real
  {
    assert ds[n..n] == [];
    EarnedAdds(0, 0, limit, window);
  }

  lemma LeastSnoc(limit: int, window: int, times: seq<int>, ds: seq<bool>, n: int, level: real)
    requires limit > 0 && window > 0 && 0 < n < |times| && n <= |ds|
    requires IsLeast(limit, window, times, ds, n - 1, level)
    ensures IsLeast(limit, window, times, ds, n,
                    Clamp(level - Spent(ds[n - 1]) + Earned(times[n] - times[n - 1], limit, window), limit))
  {
    var more := Earned(times[n] - times[n - 1], limit, window) - Spent(ds[n - 1]);
    forall i | 0 <= i < n
      ensures Left(limit, window, times, ds, i, n) == Left(limit, window, times, ds, i, n - 1) + more
    {
      LeftSnoc(limit, window, times, ds, i, n);
    }
    LeftAlone(limit, window, times, ds, n);
    var i :| 0 <= i <= n - 1 && level == Left(limit, window, times, ds, i, n - 1);
    assert Left(limit, window, times, ds, i, n) == level + more;
  }

  lemma RefillAdds(b: Bucket, limit: int, window: int, now: int)
    requires limit > 0 && window > 0 && Good(b, limit) && b.last <= now
    ensures Refill(b, limit, window, now).tokens == Clamp(b.tokens + Earned(now - b.last, limit, window), limit)
  {
    EarnedAdds(now - b.last, 0, limit, window);
  }

  lemma {:induction false} RunPrefix(b: Bucket, limit: int, window: int, times: seq<int>, k: nat)
    requires limit > 0 && window > 0 && k <= |times|
    ensures |Run(b, limit, window, times).1| == |times|
    ensures Run(b, limit, window, times[..k]).1 == Run(b, limit, window, times).1[..k]
    decreases |times|
  {
    if k == |times| {
      assert times[..k] == times;
      if times != [] {
        RunPrefix(b, limit, window, times[..|times| - 1], |times| - 1);
      }
    } else {
      var n := |times| - 1;
      RunPrefix(b, limit, window, times[..n], k);
      assert times[..n][..k] == times[..k];
    }
  }

  /** The level that call n finds. */
  ghost function LevelAt(limit: int, window: int, start: int, times: seq<int>, n: nat): real
    requires limit > 0 && window > 0 && n < |times|
  {
    Refill(Reached(limit, window, start, times[..n]), limit, window, times[n]).tokens
  }

  lemma {:induction false} LevelLaw(limit: int, window: int, start: int, times: seq<int>, ds: seq<bool>, n: nat)
    requires limit > 0 && window > 0 && n < |times| && Follows(start, times, times[|times| - 1])
    requires ds == Run(Fresh(limit, window, start), limit, window, times).1 && |ds| == |times|
    ensures IsLeast(limit, window, times, ds, n, LevelAt(limit, window, start, times, n))
  {
    var b := Reached(limit, window, start, times[..n]);
    ReachedGood(limit, window, start, times[..n], times[n]);
    RefillAdds(b, limit, window, times[n]);
    LeftAlone(limit, window, times, ds, n);
    if n == 0 {
      assert times[..0] == [];
      EarnedAdds(times[0] - start, 0, limit, window);
    } else {
      LevelLaw(limit, window, start, times, ds, n - 1);
      LeastSnoc(limit, window, times, ds, n, LevelAt(limit, window, start, times, n - 1));
      LevelStep(limit, window, start, times, ds, n);
    }
  }

  /** What call n - 1 leaves, and call n finds refilled. */
  lemma LevelStep(limit: int, window: int, start: int, times: seq<int>, ds: seq<bool>, n: nat)
    requires limit > 0 && window > 0 && 0 < n < |times| && Follows(start, times, times[|times| - 1])
    requires ds == Run(Fresh(limit, window, start), limit, window, times).1 && |ds| == |times|
    ensures LevelAt(limit, window, start, times, n)
            == Clamp(LevelAt(limit, window, start, times, n - 1) - Spent(ds[n - 1])
                     + Earned(times[n] - times[n - 1], limit, window), limit)
  {
    var before := Reached(limit, window, start, times[..n - 1]);
    ReachedGood(limit, window, start, times[..n - 1], times[n - 1]);
    CallSpends(before, limit, window, times[n - 1]);
    assert times[..n][..n - 1] == times[..n - 1];
    RunPrefix(Fresh(limit, window, start), limit, window, times, n);
    RefillAdds(Reached(limit, window, start, times[..n]), limit, window, times[n]);
  }

  // ---------------------------------------------------------------- the law

  /** A call on a bucket that began full is admitted if and only if it fits into every stretch
      of calls that ends with it. */
  lemma AdmittedIff(limit: int, window: int, start: int, times: seq<int>, n: nat)
    requires limit > 0 && window > 0 && n < |times| && Follows(start, times, times[|times| - 1])
    ensures var ds := Run(Fresh(limit, window, start), limit, window, times).1;
            |ds| == |times| && (ds[n] <==> Fits(limit, window, times, ds, n))
  {
    var b := Fresh(limit, window, start);
    var ds := Run(b, limit, window, times).1;
    RunPrefix(b, limit, window, times, n + 1);
    LevelLaw(limit, window, start, times, ds, n);
    assert times[..n + 1][..n] == times[..n];
    assert ds[n] == ds[..n + 1][n] == (LevelAt(limit, window, start, times, n) >= 1.0);
    assert forall i :: 0 <= i <= n ==>
             (1.0 <= Left(limit, window, times, ds, i, n) <==>
              Admitted(ds[i..n]) as real + 1.0 <= limit as real + Earned(times[n] - times[i], limit, window));
  }

  /** The same on the shared limiter, for the calls on one key, whatever the other keys do. */
  lemma SharedAdmittedIff(steps: seq<Memory.Step>, key: string, limit: int, window: int, n: nat)
    requires limit > 0 && window > 0 && Memory.IsRun(map[], steps) && Memory.Steady(steps, key, limit, window)
    requires n < |Memory.Own(steps, key).0|
    ensures var (ts, ds) := Memory.Own(steps, key);
            |ds| == |ts| && (ds[n] <==> Fits(limit, window, ts, ds, n))
  {
    var start := steps[0].now;
    Memory.KeyRunsAlone(map[], steps, key, limit, window, Fresh(limit, window, start), start);
    Memory.OwnOrdered(map[], steps, key);
    var ts := Memory.Own(steps, key).0;
    assert forall i :: 0 <= i < |ts| ==> ts[i] in ts;
    AdmittedIff(limit, window, start, ts, n);
  }

  // ---------------------------------------------------------------- what Remaining says

  function AtOnce(k: nat, now: int): (times: seq<int>)
    ensures |times| == k && forall i :: 0 <= i < k ==> times[i] == now
  {
    seq(k, _ => now)
  }

  ghost predicate All(ds: seq<bool>) { forall i :: 0 <= i < |ds| ==> ds[i] }

  /** After k calls at one instant: all admitted and their tokens gone, or fewer tokens than one
      left. */
  ghost predicate Drained(tokens: real, k: nat, left: real, ds: seq<bool>)
  {
    && |ds| == k && left >= 0.0 && (All(ds) <==> k as real <= tokens)
    && if k as real <= tokens then left == tokens - k as real else left < 1.0
  }

  lemma DrainedSnoc(tokens: real, k: nat, left: real, ds: seq<bool>)
    requires Drained(tokens, k, left, ds)
    ensures Drained(tokens, k + 1, if left >= 1.0 then left - 1.0 else left, ds + [left >= 1.0])
  {
    var more := ds + [left >= 1.0];
    assert All(more) ==> All(ds) by {
      assert forall i :: 0 <= i < k ==> more[i] == ds[i];
    }
    assert more[k] == (left >= 1.0);
  }

  lemma {:induction false} Drains(b: Bucket, limit: int, window: int, now: int, k: nat)
    requires limit > 0 && window > 0 && b.last == now && b.tokens >= 0.0
    ensures var (b', ds) := Run(b, limit, window, AtOnce(k, now)); b'.last == now && Drained(b.tokens, k, b'.tokens, ds)
  {
    if k > 0 {
      Drains(b, limit, window, now, k - 1);
      assert AtOnce(k, now)[..k - 1] == AtOnce(k - 1, now);
      var (b', ds) := Run(b, limit, window, AtOnce(k - 1, now));
      DrainedSnoc(b.tokens, k - 1, b'.tokens, ds);
    }
  }

  /** Remaining counts the further calls that would be admitted at the same instant. */
  lemma RemainingIff(b: Bucket, limit: int, window: int, now: int, k: nat)
    requires limit > 0 && window > 0 && Good(b, limit) && b.last <= now
    ensures var (b', d) := Call(b, limit, window, now);
            var ds := Run(b', limit, window, AtOnce(k, now)).1;
            |ds| == k && (All(ds) <==> k <= d.remaining)
  {
    CallSpends(b, limit, window, now);
    Drains(Call(b, limit, window, now).0, limit, window, now, k);
  }
}
