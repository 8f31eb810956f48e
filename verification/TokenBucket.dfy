/**
 One token bucket: capacity `limit`, refilled at limit/window. Time is an integer number
 of nanoseconds and tokens are real, so the only rounding is the one the code makes when
 it converts a wait to whole nanoseconds.
 */
module TokenBucket {
  import opened Arithmetic

  datatype Bucket = Bucket(tokens: real, last: int, window: int)

  datatype Decision = Decision(allowed: bool, remaining: int, retryAfter: int)

  /** Tokens per nanosecond. */
  function Rate(limit: int, window: int): (r: real)
    requires limit > 0 && window > 0
    ensures r > 0.0
  {
    limit as real / window as real
  }

  /** Tokens earned in a stretch of time. */
  function Earned(dt: int, limit: int, window: int): real
    requires limit > 0 && window > 0
  {
    dt as real * Rate(limit, window)
  }

  lemma EarnedAdds(a: int, b: int, limit: int, window: int)
    requires limit > 0 && window > 0
    ensures Earned(a + b, limit, window) == Earned(a, limit, window) + Earned(b, limit, window)
    ensures a >= 0 ==> Earned(a, limit, window) >= 0.0
    ensures b >= 0 ==> Earned(b, limit, window) >= 0.0
    ensures Earned(window, limit, window) == limit as real
  {
    Distribute(a as real, b as real, Rate(limit, window));
    if a >= 0 { NonNegative(a as real, Rate(limit, window)); }
    if b >= 0 { NonNegative(b as real, Rate(limit, window)); }
    Cancel(limit as real, window as real);
  }

  lemma Distribute(a: real, b: real, r: real)
    ensures (a + b) * r == a * r + b * r
  {
  }

  lemma NonNegative(a: real, r: real)
    requires a >= 0.0 && r >= 0.0
    ensures a * r >= 0.0
  {
  }

  lemma Cancel(a: real, b: real)
    requires b != 0.0
    ensures b * (a / b) == a
  {
  }

  ghost predicate Good(b: Bucket, limit: int) { 0.0 <= b.tokens <= limit as real }

  function Fresh(limit: int, window: int, now: int): Bucket { Bucket(limit as real, now, window) }

  function Clamp(x: real, limit: int): real { if x > limit as real then limit as real else x }

  function Refill(b: Bucket, limit: int, window: int, now: int): (r: Bucket)
    requires limit > 0 && window > 0
  {
    if now > b.last
    then Bucket(Clamp(b.tokens + Earned(now - b.last, limit, window), limit), now, window)
    else Bucket(b.tokens, b.last, window)
  }

  /** The exact wait until one token is there. */
  function ExactWait(tokens: real, limit: int, window: int): real
    requires limit > 0 && window > 0
  {
    (1.0 - tokens) / Rate(limit, window)
  }

  /** One call on a refilled bucket. The wait is truncated to whole nanoseconds. */
  function Take(b: Bucket, limit: int, window: int): (Bucket, Decision)
    requires limit > 0 && window > 0
  {
    if b.tokens >= 1.0
    then (b.(tokens := b.tokens - 1.0), Decision(true, (b.tokens - 1.0).Floor, 0))
    else (b, Decision(false, 0, ExactWait(b.tokens, limit, window).Floor))
  }

  function Call(b: Bucket, limit: int, window: int, now: int): (Bucket, Decision)
    requires limit > 0 && window > 0
  {
    Take(Refill(b, limit, window, now), limit, window)
  }

  // ---------------------------------------------------------------- laws

  lemma GrowsFrom(b: Bucket, limit: int, window: int, now: int)
    requires limit > 0 && window > 0 && Good(b, limit)
    ensures Good(Refill(b, limit, window, now), limit)
    ensures b.last <= now ==> Refill(b, limit, window, now).tokens <= b.tokens + Earned(now - b.last, limit, window)
    ensures b.last <= now ==> Refill(b, limit, window, now).last == now
  {
    EarnedAdds(now - b.last, 0, limit, window);
  }

  /** A bucket idle for a whole window is full: dropping it changes no later decision. */
  lemma IdleIsFresh(b: Bucket, limit: int, window: int, now: int, later: int)
    requires limit > 0 && window > 0 && Good(b, limit) && now - b.last >= window && later >= now
    ensures Refill(b, limit, window, later) == Fresh(limit, window, later)
    ensures Call(b, limit, window, later) == Call(Fresh(limit, window, later), limit, window, later)
  {
    EarnedAdds(window, later - b.last - window, limit, window);
  }

  lemma WaitEarns(w: int, x: real, r: real, need: real)
    requires r > 0.0 && x == need / r
    ensures w as real * r >= need <==> w as real >= x
  {
    assert x * r == need;
    assert (w as real - x) * r == w as real * r - need;
    if w as real < x {
      assert (x - w as real) * r > 0.0;
    }
  }

  /** A refused caller that waits w nanoseconds, with nobody calling in between, is
      admitted exactly when w covers the exact wait. */
  lemma AdmittedAfter(refused: Bucket, limit: int, window: int, w: nat)
    requires limit > 0 && window > 0 && 0.0 <= refused.tokens < 1.0
    ensures Call(refused, limit, window, refused.last + w).1.allowed <==>
            w as real >= ExactWait(refused.tokens, limit, window)
  {
    WaitEarns(w, ExactWait(refused.tokens, limit, window), Rate(limit, window), 1.0 - refused.tokens);
    assert w as real * Rate(limit, window) == Earned(w, limit, window);
  }

  lemma WaitPositive(need: real, r: real)
    requires need > 0.0 && r > 0.0
    ensures need / r > 0.0
  {
    assert need / r * r == need;
  }

  /** In exact arithmetic, RetryAfter is the exact wait cut to whole nanoseconds: waiting that
      long suffices when nothing was cut, and one nanosecond more always suffices. */
  lemma RetryAfterCut(b: Bucket, limit: int, window: int, now: int)
    requires limit > 0 && window > 0 && Good(b, limit) && b.last <= now
    requires !Call(b, limit, window, now).1.allowed
    ensures var (refused, d) := Call(b, limit, window, now);
            && d.retryAfter >= 0
            && (Call(refused, limit, window, now + d.retryAfter).1.allowed <==>
                ExactWait(refused.tokens, limit, window) == d.retryAfter as real)
            && Call(refused, limit, window, now + d.retryAfter + 1).1.allowed
  {
    GrowsFrom(b, limit, window, now);
    var (refused, d) := Call(b, limit, window, now);
    WaitPositive(1.0 - refused.tokens, Rate(limit, window));
    AdmittedAfter(refused, limit, window, d.retryAfter);
    AdmittedAfter(refused, limit, window, d.retryAfter + 1);
  }

  // ---------------------------------------------------------------- runs

  /** The decisions of a run of calls, and the bucket it leaves. */
  function Run(b: Bucket, limit: int, window: int, times: seq<int>): (Bucket, seq<bool>)
    requires limit > 0 && window > 0
    decreases |times|
  {
    if times == [] then (b, [])
    else
      var n := |times| - 1;
      var (b1, ds) := Run(b, limit, window, times[..n]);
      var (b2, d) := Call(b1, limit, window, times[n]);
      (b2, ds + [d.allowed])
  }

  function Admitted(ds: seq<bool>): nat
  {
    if ds == [] then 0 else Admitted(ds[..|ds| - 1]) + (if ds[|ds| - 1] then 1 else 0)
  }

  lemma CallSpends(b: Bucket, limit: int, window: int, now: int)
    requires limit > 0 && window > 0 && Good(b, limit) && b.last <= now
    ensures var (b', d) := Call(b, limit, window, now);
            && Good(b', limit) && b'.last == now
            && Spent(d.allowed) + b'.tokens == Refill(b, limit, window, now).tokens
               <= b.tokens + Earned(now - b.last, limit, window)
  {
    GrowsFrom(b, limit, window, now);
  }

  function Spent(allowed: bool): real { if allowed then 1.0 else 0.0 }

  lemma AdmittedSnoc(ds: seq<bool>, allowed: bool)
    ensures Admitted(ds + [allowed]) as real == Admitted(ds) as real + Spent(allowed)
  {
    assert (ds + [allowed])[..|ds|] == ds;
  }

  /** Every admitted call spends a token that was there or was refilled. */
  lemma {:induction false} SpendsWhatItEarns(b: Bucket, limit: int, window: int, times: seq<int>)
    requires limit > 0 && window > 0 && Good(b, limit) && Ascending(times) && times != [] && b.last <= times[0]
    ensures var (b', ds) := Run(b, limit, window, times);
            && Good(b', limit) && b'.last == times[|times| - 1] && |ds| == |times|
            && Admitted(ds) as real + b'.tokens
               <= Refill(b, limit, window, times[0]).tokens + Earned(times[|times| - 1] - times[0], limit, window)
    decreases |times|
  {
    var n := |times| - 1;
    var (b1, ds) := Run(b, limit, window, times[..n]);
    AdmittedSnoc(ds, Call(b1, limit, window, times[n]).1.allowed);
    if n == 0 {
      assert times[..0] == [] && b1 == b && ds == [];
      CallSpends(b, limit, window, times[0]);
      EarnedAdds(0, 0, limit, window);
    } else {
      SpendsWhatItEarns(b, limit, window, times[..n]);
      CallSpends(b1, limit, window, times[n]);
      EarnedAdds(times[n - 1] - times[0], times[n] - times[n - 1], limit, window);
    }
  }

  /** Any stretch of calls between times s and t admits at most
      limit + limit * (t - s) / window of them, from any state a run can reach. */
  lemma AdmissionBound(b: Bucket, limit: int, window: int, times: seq<int>)
    requires limit > 0 && window > 0 && Good(b, limit) && Ascending(times) && times != [] && b.last <= times[0]
    ensures Admitted(Run(b, limit, window, times).1) as real
            <= limit as real + Earned(times[|times| - 1] - times[0], limit, window)
  {
    SpendsWhatItEarns(b, limit, window, times);
    GrowsFrom(b, limit, window, times[0]);
  }

  // ---------------------------------------------------------------- when RetryAfter is long enough

  /** The bucket that a run of calls leaves of a fresh one. */
  function Reached(limit: int, window: int, start: int, times: seq<int>): Bucket
    requires limit > 0 && window > 0
  {
    Run(Fresh(limit, window, start), limit, window, times).0
  }

  ghost predicate Follows(start: int, times: seq<int>, now: int)
  {
    && Ascending(times) && start <= now
    && forall i :: 0 <= i < |times| ==> start <= times[i] <= now
  }

  /** After any run of calls on a fresh bucket, a caller that is refused and comes back exactly
      RetryAfter later is admitted. */
  ghost predicate RetryAfterSuffices(limit: int, window: int)
    requires limit > 0 && window > 0
  {
    forall start: int, times: seq<int>, now: int :: Follows(start, times, now) ==>
      RetriesIn(Reached(limit, window, start, times), limit, window, now)
  }

  ghost predicate RetriesIn(b: Bucket, limit: int, window: int, now: int)
    requires limit > 0 && window > 0
  {
    var (refused, d) := Call(b, limit, window, now);
    d.allowed || Call(refused, limit, window, now + d.retryAfter).1.allowed
  }

  lemma {:induction false} ReachedGood(limit: int, window: int, start: int, times: seq<int>, now: int)
    requires limit > 0 && window > 0 && Follows(start, times, now)
    ensures var b := Reached(limit, window, start, times); Good(b, limit) && b.last <= now
    decreases |times|
  {
    if times != [] {
      var n := |times| - 1;
      ReachedGood(limit, window, start, times[..n], times[n]);
      CallSpends(Reached(limit, window, start, times[..n]), limit, window, times[n]);
    }
  }

  /** n q-th parts of a token. */
  function Parts(n: int, q: int): real
    requires q > 0
  {
    n as real / q as real
  }

  /** The level is a whole number of q-th parts of a token. */
  ghost predicate OnGrid(x: real, q: int)
    requires q > 0
  {
    exists n: int :: x == Parts(n, q)
  }

  lemma RateOfGrid(limit: int, window: int, q: int)
    requires limit > 0 && q > 0 && window == limit * q
    ensures window > 0 && Rate(limit, window) == 1.0 / q as real
  {
    assert window as real == limit as real * q as real;
    assert 1.0 / q as real * window as real == limit as real;
  }

  lemma GridAdds(n: int, k: int, q: int)
    requires q > 0
    ensures Parts(n, q) + k as real * (1.0 / q as real) == Parts(n + k, q)
  {
  }

  lemma GridWhole(k: int, q: int)
    requires q > 0
    ensures k as real == Parts(k * q, q)
  {
    assert (k * q) as real == k as real * q as real;
  }

  lemma RefillOnGrid(b: Bucket, limit: int, window: int, q: int, now: int)
    requires limit > 0 && q > 0 && window == limit * q && window > 0 && OnGrid(b.tokens, q)
    ensures OnGrid(Refill(b, limit, window, now).tokens, q)
  {
    var n: int :| b.tokens == Parts(n, q);
    RateOfGrid(limit, window, q);
    GridAdds(n, now - b.last, q);
    GridWhole(limit, q);
  }

  lemma CallOnGrid(b: Bucket, limit: int, window: int, q: int, now: int)
    requires limit > 0 && q > 0 && window == limit * q && window > 0 && OnGrid(b.tokens, q)
    ensures OnGrid(Call(b, limit, window, now).0.tokens, q)
  {
    RefillOnGrid(b, limit, window, q, now);
    var x := Refill(b, limit, window, now).tokens;
    var n: int :| x == Parts(n, q);
    GridAdds(n, -q, q);
    GridWhole(1, q);
    assert x - 1.0 == Parts(n - q, q);
  }

  lemma {:induction false} ReachedOnGrid(limit: int, window: int, q: int, start: int, times: seq<int>)
    requires limit > 0 && q > 0 && window == limit * q && window > 0
    ensures OnGrid(Reached(limit, window, start, times).tokens, q)
    decreases |times|
  {
    if times == [] {
      GridWhole(limit, q);
    } else {
      var n := |times| - 1;
      ReachedOnGrid(limit, window, q, start, times[..n]);
      CallOnGrid(Reached(limit, window, start, times[..n]), limit, window, q, times[n]);
    }
  }

  /** On the grid every exact wait is a whole number of nanoseconds. */
  lemma WaitIsWhole(x: real, n: int, limit: int, window: int, q: int)
    requires limit > 0 && q > 0 && window == limit * q && window > 0 && x == Parts(n, q)
    ensures ExactWait(x, limit, window) == (q - n) as real
  {
    RateOfGrid(limit, window, q);
    var r := 1.0 / q as real;
    assert r * q as real == 1.0;
    assert x == n as real * r;
    assert (q - n) as real * r == 1.0 - x;
    Quotient(1.0 - x, r, (q - n) as real);
  }

  lemma Quotient(a: real, r: real, k: real)
    requires r > 0.0 && k * r == a
    ensures a / r == k
  {
  }

  lemma WholeWindows(limit: int, window: int, start: int, times: seq<int>, now: int)
    requires limit > 0 && window > 0 && window % limit == 0 && Follows(start, times, now)
    ensures RetriesIn(Reached(limit, window, start, times), limit, window, now)
  {
    var b, q := Reached(limit, window, start, times), window / limit;
    assert window == limit * q && q > 0;
    ReachedGood(limit, window, start, times, now);
    var (refused, d) := Call(b, limit, window, now);
    if !d.allowed {
      ReachedOnGrid(limit, window, q, start, times);
      CallOnGrid(b, limit, window, q, now);
      var n: int :| refused.tokens == Parts(n, q);
      WaitIsWhole(refused.tokens, n, limit, window, q);
      RetryAfterCut(b, limit, window, now);
    }
  }

  /** k calls at one instant. */
  function Burst(k: nat): seq<int> { seq(k, _ => 0) }

  /** A burst on a fresh bucket is admitted and takes one token a call. */
  lemma {:induction false} BurstDrains(limit: int, window: int, k: nat)
    requires limit > 0 && window > 0 && k <= limit
    ensures var (b, ds) := Run(Fresh(limit, window, 0), limit, window, Burst(k));
            b == Bucket((limit - k) as real, 0, window) && |ds| == k && forall i :: 0 <= i < k ==> ds[i]
  {
    if k > 0 {
      BurstDrains(limit, window, k - 1);
      assert Burst(k)[..k - 1] == Burst(k - 1);
    }
  }

  /** The wait of a drained bucket is window/limit. */
  lemma DrainedWait(limit: int, window: int)
    requires limit > 0 && window > 0
    ensures ExactWait(0.0, limit, window) * limit as real == window as real
  {
    Cancel(limit as real, window as real);
    var r := Rate(limit, window);
    Cancel(1.0, r);
    assert ExactWait(0.0, limit, window) * r == 1.0;
    assert r * window as real == limit as real;
    var w := ExactWait(0.0, limit, window);
    assert w * (r * window as real) == (w * r) * window as real;
  }

  lemma NotWhole(k: int, limit: int, window: int)
    requires limit > 0 && window > 0 && window % limit != 0
    ensures ExactWait(0.0, limit, window) != k as real
  {
    DrainedWait(limit, window);
    RealProduct(k, limit);
    if k * limit == window {
      Multiple(k, limit, window);
      assert false;
    }
  }

  lemma RealProduct(k: int, n: int)
    ensures (k * n) as real == k as real * n as real
  {
  }

  lemma PartialWindows(limit: int, window: int)
    requires limit > 0 && window > 0 && window % limit != 0
    ensures Follows(0, Burst(limit), 0) && !RetriesIn(Reached(limit, window, 0, Burst(limit)), limit, window, 0)
  {
    BurstDrains(limit, window, limit);
    var b := Reached(limit, window, 0, Burst(limit));
    var d := Call(b, limit, window, 0).1;
    RetryAfterCut(b, limit, window, 0);
    NotWhole(d.retryAfter, limit, window);
  }

  lemma Multiple(k: int, limit: int, window: int)
    requires limit > 0 && k * limit == window
    ensures window % limit == 0
  {
    DivisionIs(window, limit, k, 0);
  }

  /** In exact arithmetic, waiting exactly RetryAfter is always enough, after every run of calls,
      if and only if the window is a whole number of nanoseconds per token. */
  lemma RetryAfterIff(limit: int, window: int)
    requires limit > 0 && window > 0
    ensures RetryAfterSuffices(limit, window) <==> window % limit == 0
  {
    if window % limit == 0 {
      forall start: int, times: seq<int>, now: int | Follows(start, times, now)
        ensures RetriesIn(Reached(limit, window, start, times), limit, window, now)
      {
        WholeWindows(limit, window, start, times, now);
      }
    } else {
      PartialWindows(limit, window);
    }
  }

  lemma {:induction false} AllAdmitted(ds: seq<bool>)
    requires forall i :: 0 <= i < |ds| ==> ds[i]
    ensures Admitted(ds) == |ds|
  {
    if ds != [] {
      AllAdmitted(ds[..|ds| - 1]);
    }
  }

  /** Three calls per second: after three calls at once the fourth is told to wait 333333333 ns,
      which is a third of a nanosecond short. */
  lemma RetryAfterTooShort()
    ensures var (b, ds) := Run(Fresh(3, 1_000_000_000, 0), 3, 1_000_000_000, Burst(3));
            var (refused, d) := Call(b, 3, 1_000_000_000, 0);
            && Admitted(ds) == 3 && !d.allowed && d.retryAfter == 333_333_333
            && !Call(refused, 3, 1_000_000_000, 333_333_333).1.allowed
            && Call(refused, 3, 1_000_000_000, 333_333_334).1.allowed
  {
    BurstDrains(3, 1_000_000_000, 3);
    var (b, ds) := Run(Fresh(3, 1_000_000_000, 0), 3, 1_000_000_000, Burst(3));
    AllAdmitted(ds);
    var refused := Call(b, 3, 1_000_000_000, 0).0;
    assert 333_333_333.0 < ExactWait(0.0, 3, 1_000_000_000) < 333_333_334.0;
    AdmittedAfter(refused, 3, 1_000_000_000, 333_333_333);
    AdmittedAfter(refused, 3, 1_000_000_000, 333_333_334);
  }
}
