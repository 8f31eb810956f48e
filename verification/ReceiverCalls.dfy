/**
 Runs of whole Handle calls, one after the other: which tokens are handled, and which are
 refused as replays. Handlers may succeed or fail as they like.
 */
module ReceiverCalls {
  import opened Receiver

  function Exec(max: nat, window: int, calls: seq<Call>): Seen
  {
    if calls == [] then map[]
    else HandleOf(Exec(max, window, calls[..|calls| - 1]), max, window, calls[|calls| - 1]).0
  }

  /** The memory that the numbered call finds. */
  function SeenAt(max: nat, window: int, calls: seq<Call>, n: nat): Seen
    requires n <= |calls|
  {
    Exec(max, window, calls[..n])
  }

  function OutcomeAt(max: nat, window: int, calls: seq<Call>, n: nat): Outcome
    requires n < |calls|
  {
    HandleOf(SeenAt(max, window, calls, n), max, window, calls[n]).1
  }

  ghost predicate InTime(calls: seq<Call>)
  {
    forall i, j :: 0 <= i < j < |calls| ==> calls[i].now <= calls[j].now
  }

  /** The numbered call ran all handlers for the key. */
  ghost predicate Handles(max: nat, window: int, calls: seq<Call>, i: nat, key: string)
    requires i < |calls|
  {
    OutcomeAt(max, window, calls, i) == Handled && KeyOf(calls[i].iss, calls[i].jti) == key
  }

  /** A mark stands for a call that handled the key. */
  ghost predicate Backed(max: nat, window: int, calls: seq<Call>, n: nat, key: string)
    requires n <= |calls|
  {
    var seen := SeenAt(max, window, calls, n);
    key in seen ==> exists i: nat :: i < n && Handles(max, window, calls, i, key) && seen[key] == calls[i].now + window
  }

  /** A call that handled the key less than a window before `now` has its mark. */
  ghost predicate Marks(max: nat, window: int, calls: seq<Call>, n: nat, key: string, now: int)
    requires n <= |calls|
  {
    var seen := SeenAt(max, window, calls, n);
    forall i: nat :: i < n && Handles(max, window, calls, i, key) && now < calls[i].now + window ==>
      key in seen && seen[key] == calls[i].now + window
  }

  lemma SeenStep(max: nat, window: int, calls: seq<Call>, n: nat)
    requires n < |calls|
    ensures SeenAt(max, window, calls, n + 1) == HandleOf(SeenAt(max, window, calls, n), max, window, calls[n]).0
  {
    assert calls[..n + 1][..n] == calls[..n];
  }

  lemma BackedStep(max: nat, window: int, calls: seq<Call>, n: nat, key: string)
    requires n < |calls| && Backed(max, window, calls, n, key)
    ensures Backed(max, window, calls, n + 1, key)
  {
    SeenStep(max, window, calls, n);
    var seen, seen' := SeenAt(max, window, calls, n), SeenAt(max, window, calls, n + 1);
    if key in seen' {
      if key in seen && seen'[key] == seen[key] {
        var i: nat :| i < n && Handles(max, window, calls, i, key) && seen[key] == calls[i].now + window;
        assert i < n + 1;
      } else {
        assert Handles(max, window, calls, n, key) && seen'[key] == calls[n].now + window;
      }
    }
  }

  lemma MarksStep(max: nat, window: int, calls: seq<Call>, n: nat, key: string)
    requires n < |calls| && Marks(max, window, calls, n, key, calls[n].now)
    ensures Marks(max, window, calls, n + 1, key, calls[n].now)
  {
    SeenStep(max, window, calls, n);
    var seen, seen', now := SeenAt(max, window, calls, n), SeenAt(max, window, calls, n + 1), calls[n].now;
    forall i: nat | i < n + 1 && Handles(max, window, calls, i, key) && now < calls[i].now + window
      ensures key in seen' && seen'[key] == calls[i].now + window
    {
      if i < n {
        assert Live(seen, key, now);
      }
    }
  }

  lemma {:induction false} Tracks(max: nat, window: int, calls: seq<Call>, n: nat, key: string, now: int)
    requires n <= |calls| && InTime(calls) && (n > 0 ==> calls[n - 1].now <= now)
    ensures Backed(max, window, calls, n, key) && Marks(max, window, calls, n, key, now)
  {
    if n > 0 {
      Tracks(max, window, calls, n - 1, key, calls[n - 1].now);
      BackedStep(max, window, calls, n - 1, key);
      MarksStep(max, window, calls, n - 1, key);
    }
  }

  /** The numbered call handled this token. */
  ghost predicate Processed(max: nat, window: int, calls: seq<Call>, i: nat, iss: string, jti: string)
    requires i < |calls|
  {
    OutcomeAt(max, window, calls, i) == Handled && calls[i].iss == iss && calls[i].jti == jti
  }

  /** With trusted issuers none of which continues another one with a NUL, a verified token is
      refused as a replay exactly when an earlier call processed that token, by issuer and
      token id, less than a replay window before. In particular a failed handler leaves its
      token retryable, whatever is handled in between. */
  lemma ReplayedIff(max: nat, window: int, issuers: set<string>, calls: seq<Call>, n: nat)
    requires n < |calls| && InTime(calls) && calls[n].verified && NulPrefixFree(issuers)
    requires forall i :: 0 <= i < |calls| && calls[i].verified ==> calls[i].iss in issuers
    ensures OutcomeAt(max, window, calls, n) == Replayed <==>
            exists i: nat :: i < n && Processed(max, window, calls, i, calls[n].iss, calls[n].jti)
                             && calls[n].now < calls[i].now + window
  {
    var c := calls[n];
    var key, seen := KeyOf(c.iss, c.jti), SeenAt(max, window, calls, n);
    Tracks(max, window, calls, n, key, c.now);
    KeysInjectiveIff(issuers);
    if Live(seen, key, c.now) {
      var i: nat :| i < n && Handles(max, window, calls, i, key) && seen[key] == calls[i].now + window;
      assert Processed(max, window, calls, i, c.iss, c.jti);
    }
    if i: nat :| i < n && Processed(max, window, calls, i, c.iss, c.jti) && c.now < calls[i].now + window {
      assert Handles(max, window, calls, i, key);
    }
  }

  /** A token is processed at most once per replay window, whatever its handlers do. */
  lemma ProcessedOncePerWindow(max: nat, window: int, calls: seq<Call>, i: nat, j: nat, iss: string, jti: string)
    requires i < j < |calls| && InTime(calls)
    requires Processed(max, window, calls, i, iss, jti) && Processed(max, window, calls, j, iss, jti)
    ensures calls[i].now + window <= calls[j].now
  {
    Tracks(max, window, calls, j, KeyOf(iss, jti), calls[j].now);
    assert Handles(max, window, calls, i, KeyOf(iss, jti));
  }
}
