/**
 What the requests about streams change, who may make them, how many SETs emitting events
 queues for a stream, and how often verification events go out.
 */
module SignalsStreams {
  import opened Options
  import opened Orders
  import opened Lists
  import opened Arithmetic
  import opened SignalsStore
  import opened SignalsRuns
  import T = SignalsTransmitter

  // ---------------------------------------------------------------- who may ask

  /** A request of a receiver about the stream. */
  ghost predicate Asks(e: Event, id: string, receiver: string)
  {
    match e
    case Update(stream, r) => stream.id == id && r == receiver
    case SetStatus(i, r, _) => i == id && r == receiver
    case Delete(i, r) => i == id && r == receiver
    case Subject(i, r, _, _) => i == id && r == receiver
    case Poll(i, r, _) => i == id && r == receiver
    case _ => false
  }

  /** Nobody but its owner changes anything through a stream. */
  lemma OnlyOwners(cfg: Config, w: World, e: Event, id: string, receiver: string)
    requires Asks(e, id, receiver) && !(id in w.s.streams && w.s.streams[id].receiver == receiver)
    ensures Next(cfg, w, e) == w
  {
  }

  // ---------------------------------------------------------------- what changes

  /** The streams and subjects of other streams are as they were. */
  ghost predicate OthersKept(s: State, s': State, id: string)
  {
    forall o :: o != id ==>
      && (o in s'.streams <==> o in s.streams) && (o in s.streams ==> s'.streams[o] == s.streams[o])
      && (o in s'.subjects <==> o in s.subjects) && (o in s.subjects ==> s'.subjects[o] == s.subjects[o])
  }

  /** A status change by the owner sets the status and nothing else; nothing queued is lost or
      touched. */
  lemma StatusSet(cfg: Config, w: World, id: string, receiver: string, status: Status)
    requires Inv(cfg, w) && id in w.s.streams && w.s.streams[id].receiver == receiver
    ensures var w' := Next(cfg, w, SetStatus(id, receiver, status));
            && id in w'.s.streams && w'.s.streams[id] == w.s.streams[id].(status := status)
            && OthersKept(w.s, w'.s, id) && w'.s.subjects == w.s.subjects
            && w' == w.(s := w'.s) && w'.s.queue == w.s.queue
  {
    var w' := Next(cfg, w, SetStatus(id, receiver, status));
    assert w.s.streams[id].id == id;
    forall q | q in w.s.queue
      ensures q in w'.s.queue && w'.s.queue[q] == w.s.queue[q]
    {
      assert GoodSet(cfg, w, q);
    }
    assert w'.s.queue == w.s.queue;
  }

  /** A new stream is added as it is, and nothing else changes. */
  lemma StreamCreated(cfg: Config, w: World, stream: Stream)
    requires Possible(w, Create(stream))
    ensures var w' := Next(cfg, w, Create(stream));
            && stream.id in w'.s.streams && w'.s.streams[stream.id] == stream && OthersKept(w.s, w'.s, stream.id)
            && w' == w.(s := w'.s) && w'.s.queue == w.s.queue && w'.s.subjects == w.s.subjects
  {
  }

  /** An update by the owner replaces the stream; the SETs queued for it take its delivery method,
      and nothing else about any SET changes. */
  lemma StreamUpdated(cfg: Config, w: World, stream: Stream, receiver: string)
    requires stream.id in w.s.streams && w.s.streams[stream.id].receiver == receiver
    ensures var w' := Next(cfg, w, Update(stream, receiver));
            && w'.s.streams == w.s.streams[stream.id := stream] && w'.s.subjects == w.s.subjects
            && w' == w.(s := w'.s) && w'.s.queue.Keys == w.s.queue.Keys
            && forall q :: q in w.s.queue ==>
                 w'.s.queue[q] == if w.s.queue[q].stream == stream.id
                                  then w.s.queue[q].(push := stream.via == Push) else w.s.queue[q]
  {
  }

  /** A deletion by the owner removes the stream, its subjects, and the SETs queued for it. */
  lemma StreamDeleted(cfg: Config, w: World, id: string, receiver: string)
    requires id in w.s.streams && w.s.streams[id].receiver == receiver
    ensures var w' := Next(cfg, w, Delete(id, receiver));
            && id !in w'.s.streams && id !in w'.s.subjects && OthersKept(w.s, w'.s, id)
            && forall q :: q in w.s.queue ==>
                 if w.s.queue[q].stream == id
                 then q !in w'.s.queue && q in w'.fates && w'.fates[q] == RemovedWithStream
                 else q in w'.s.queue && w'.s.queue[q] == w.s.queue[q]
  {
  }

  /** The subject is registered for the stream. */
  predicate Registered(s: State, id: string, key: string) { id in s.subjects && key in s.subjects[id] }

  /** A subject request of the owner registers the subject or takes it back, and no other. */
  lemma SubjectSet(cfg: Config, w: World, id: string, receiver: string, key: string, add: bool)
    requires id in w.s.streams && w.s.streams[id].receiver == receiver
    ensures var w' := Next(cfg, w, Subject(id, receiver, key, add));
            && (Registered(w'.s, id, key) <==> add)
            && (forall k :: k != key ==> (Registered(w'.s, id, k) <==> Registered(w.s, id, k)))
            && OthersKept(w.s, w'.s, id) && w'.s.streams == w.s.streams && w'.s.queue == w.s.queue
  {
  }

  /** Queueing SETs files each of them and changes no other. */
  lemma {:induction false} QueueAdds(w: World, sets: seq<Pending>, id: string)
    requires forall i, j :: 0 <= i < j < |sets| ==> sets[i].id != sets[j].id
    ensures var w' := EnqueueAll(w, sets);
            && (forall i :: 0 <= i < |sets| && sets[i].id == id ==> id in w'.s.queue && w'.s.queue[id] == sets[i])
            && ((forall i :: 0 <= i < |sets| ==> sets[i].id != id) ==>
                  (id in w'.s.queue <==> id in w.s.queue) && (id in w.s.queue ==> w'.s.queue[id] == w.s.queue[id]))
  {
    if sets != [] {
      QueueAdds(w, sets[..|sets| - 1], id);
    }
  }

  /** A requested delivery is accepted when it names a known method and, for push, an endpoint that
      is acceptable; the stream then delivers that way and is otherwise unchanged. */
  lemma DeliveryIff(stream: Stream, d: T.Delivery)
    ensures var push := d.name in {"https://schemas.openid.net/secevent/risc/delivery-method/push",
                                   "urn:ietf:rfc:8935"};
            var poll := d.name in {"https://schemas.openid.net/secevent/risc/delivery-method/poll",
                                   "urn:ietf:rfc:8936"};
            var r := T.ApplyDelivery(stream, Some(d));
            && (r.Some? <==> (push && d.endpointOk) || (poll && !push))
            && (r.Some? ==> r.value == stream.(via := if push then Push else Method.Poll))
    ensures T.ApplyDelivery(stream, None) == Some(stream)
  {
  }

  /** A stream gets the event types that are supported and, if it asked for any, that it asked
      for. */
  lemma {:induction false} DeliveredIff(requested: seq<string>, supported: seq<string>, kind: string)
    ensures kind in T.Supported(requested, supported) <==> kind in requested && kind in supported
    ensures kind in T.DeliveredFor(requested, supported) <==>
            kind in supported && (requested == [] || kind in requested)
  {
    if requested != [] {
      var n := |requested| - 1;
      DeliveredIff(requested[..n], supported, kind);
      assert requested == requested[..n] + [requested[n]];
    }
  }

  // ---------------------------------------------------------------- one SET for each event

  ghost predicate WantedAt(s: State, stream: Stream, ev: T.Event)
  {
    stream.status != Disabled && ev.kind in stream.delivered && T.Concerns(s, stream.id, ev)
  }

  /** The positions of the events that the stream wants. */
  ghost function Wanted(s: State, stream: Stream, events: seq<T.Event>): set<int>
  {
    set i | 0 <= i < |events| && WantedAt(s, stream, events[i])
  }

  lemma WantedSnoc(s: State, stream: Stream, events: seq<T.Event>)
    requires events != []
    ensures var n := |events| - 1;
            |Wanted(s, stream, events)|
            == |Wanted(s, stream, events[..n])| + if WantedAt(s, stream, events[n]) then 1 else 0
  {
    var n := |events| - 1;
    var before := Wanted(s, stream, events[..n]);
    assert Wanted(s, stream, events) == if WantedAt(s, stream, events[n]) then before + {n} else before;
  }

  lemma {:induction false} OneForEach(s: State, stream: Stream, events: seq<T.Event>, x: Stream)
    ensures multiset(FlatMap(events, T.WantedBy(s.subjects, stream)))[x]
            == if x == stream then |Wanted(s, stream, events)| else 0
  {
    if events == [] {
      assert Wanted(s, stream, events) == {};
    } else {
      var n := |events| - 1;
      OneForEach(s, stream, events[..n], x);
      WantedSnoc(s, stream, events);
      T.WantsIff(s, stream, events[n]);
      LastPiece(FlatMap(events[..n], T.WantedBy(s.subjects, stream)), stream, WantedAt(s, stream, events[n]), x);
    }
  }

  lemma LastPiece(q: seq<Stream>, stream: Stream, wanted: bool, x: Stream)
    ensures multiset(q + if wanted then [stream] else [])[x] == multiset(q)[x] + if wanted && x == stream then 1 else 0
  {
    assert q + [] == q;
  }

  lemma {:induction false} CountedOver(s: State, ids: seq<string>, events: seq<T.Event>, x: Stream)
    requires Distinct(ids) && forall id :: id in ids ==> id in s.streams && s.streams[id].id == id
    ensures multiset(FlatMap(ids, T.WantedFor(s, events)))[x]
            == if x.id in ids && s.streams[x.id] == x then |Wanted(s, x, events)| else 0
  {
    if ids != [] {
      var n := |ids| - 1;
      assert ids == ids[..n] + [ids[n]] && ids[n] !in ids[..n];
      CountedOver(s, ids[..n], events, x);
      OneForEach(s, s.streams[ids[n]], events, x);
    }
  }

  /** Emitting events queues, for every stream, exactly one SET for each of the events that it
      wants. */
  lemma TargetsCount(s: State, events: seq<T.Event>, stream: Stream)
    requires forall k :: k in s.streams ==> s.streams[k].id == k
    requires stream.id in s.streams && s.streams[stream.id] == stream
    ensures multiset(T.Targets(s, events))[stream] == |Wanted(s, stream, events)|
  {
    LexIsLinear(s.streams.Keys);
    ArrangeIncreases(s.streams.Keys, LexLess);
    CountedOver(s, Arrange(s.streams.Keys, LexLess), events, stream);
  }

  /** The SETs of a batch are those of the targets whose token could be signed, each with the ids,
      the token and the time that were made for it, and the delivery method of its stream. */
  lemma {:induction false} BatchMeaning(targets: seq<Stream>, mint: nat -> T.Minted, p: Pending)
    ensures p in T.Batch(targets, mint) <==>
            exists j: nat :: && j < |targets| && mint(j).signed
                             && p == Pending(mint(j).id, targets[j].id, mint(j).jti, mint(j).token,
                                             targets[j].via == Push, 0, mint(j).at, mint(j).at)
  {
    if targets != [] {
      var n := |targets| - 1;
      BatchMeaning(targets[..n], mint, p);
      if j: nat :| && j < |targets| && mint(j).signed
                   && p == Pending(mint(j).id, targets[j].id, mint(j).jti, mint(j).token,
                                   targets[j].via == Push, 0, mint(j).at, mint(j).at) {
        assert j < n ==> targets[..n][j] == targets[j];
      }
    }
  }

  // ---------------------------------------------------------------- verification events

  /** A request for a verification event: the stream and the time. */
  datatype Ask = Ask(id: string, now: int)

  /** Which requests pass the interval check, one after the other; only those are remembered. */
  function Asked(min: int, asks: seq<Ask>): (map<string, int>, seq<bool>)
  {
    if asks == [] then (map[], [])
    else
      var n := |asks| - 1;
      var (last, oks) := Asked(min, asks[..n]);
      var ok := T.MayAsk(last, min, asks[n].id, asks[n].now);
      (if ok && min > 0 then last[asks[n].id := asks[n].now] else last, oks + [ok])
  }

  ghost predicate Rising(asks: seq<Ask>) { forall i, j :: 0 <= i < j < |asks| ==> asks[i].now <= asks[j].now }

  /** The remembered time is that of the last request that passed. */
  ghost predicate Remembers(asks: seq<Ask>, last: map<string, int>, oks: seq<bool>)
    requires |oks| == |asks|
  {
    && (forall i :: 0 <= i < |asks| && oks[i] ==> asks[i].id in last && asks[i].now <= last[asks[i].id])
    && forall id :: id in last ==> exists i :: 0 <= i < |asks| && oks[i] && asks[i] == Ask(id, last[id])
  }

  lemma {:induction false} AskedRemembers(min: int, asks: seq<Ask>)
    requires min > 0 && Rising(asks)
    ensures var (last, oks) := Asked(min, asks); |oks| == |asks| && Remembers(asks, last, oks)
  {
    if asks != [] {
      var n := |asks| - 1;
      AskedRemembers(min, asks[..n]);
      RemembersSnoc(asks, Asked(min, asks[..n]).0, Asked(min, asks[..n]).1, Asked(min, asks).1[n]);
    }
  }

  lemma RemembersSnoc(asks: seq<Ask>, last: map<string, int>, oks: seq<bool>, ok: bool)
    requires asks != [] && Rising(asks) && |oks| == |asks| - 1 && Remembers(asks[..|asks| - 1], last, oks)
    ensures var a := asks[|asks| - 1];
            Remembers(asks, if ok then last[a.id := a.now] else last, oks + [ok])
  {
    var n := |asks| - 1;
    var a := asks[n];
    var last' := if ok then last[a.id := a.now] else last;
    forall id | id in last'
      ensures exists i :: 0 <= i < |asks| && (oks + [ok])[i] && asks[i] == Ask(id, last'[id])
    {
      if ok && id == a.id {
        assert (oks + [ok])[n] && asks[n] == Ask(id, last'[id]);
      } else {
        var i :| 0 <= i < n && oks[i] && asks[..n][i] == Ask(id, last[id]);
        assert (oks + [ok])[i] && asks[i] == Ask(id, last'[id]);
      }
    }
  }

  lemma {:induction false} AskedPrefix(min: int, asks: seq<Ask>, k: nat)
    requires k <= |asks|
    ensures |Asked(min, asks).1| == |asks| && Asked(min, asks[..k]).1 == Asked(min, asks).1[..k]
    decreases |asks|
  {
    if k == |asks| {
      assert asks[..k] == asks;
      if asks != [] {
        AskedPrefix(min, asks[..|asks| - 1], |asks| - 1);
      }
    } else {
      AskedPrefix(min, asks[..|asks| - 1], k);
      assert asks[..|asks| - 1][..k] == asks[..k];
    }
  }

  /** No request for the stream passed within the interval before `now`. */
  ghost predicate Quiet(min: int, asks: seq<Ask>, oks: seq<bool>, n: int, a: Ask)
    requires 0 <= n <= |asks| && n <= |oks|
  {
    forall i :: 0 <= i < n && oks[i] && asks[i].id == a.id ==> a.now - asks[i].now >= min
  }

  lemma MayAskIff(min: int, asks: seq<Ask>, last: map<string, int>, oks: seq<bool>, a: Ask)
    requires min > 0 && |oks| == |asks| && Remembers(asks, last, oks)
    ensures T.MayAsk(last, min, a.id, a.now) <==> Quiet(min, asks, oks, |asks|, a)
  {
    if a.id in last {
      var i :| 0 <= i < |asks| && oks[i] && asks[i] == Ask(a.id, last[a.id]);
      assert oks[i] && asks[i].id == a.id;
    }
  }

  lemma AskedAt(min: int, asks: seq<Ask>, n: nat)
    requires n < |asks|
    ensures Asked(min, asks[..n + 1]).1
            == Asked(min, asks[..n]).1 + [T.MayAsk(Asked(min, asks[..n]).0, min, asks[n].id, asks[n].now)]
  {
    assert asks[..n + 1][..n] == asks[..n];
  }

  lemma PassesFrom(min: int, asks: seq<Ask>, oks: seq<bool>, last: map<string, int>, n: nat)
    requires min > 0 && |oks| == |asks| && n < |asks| && Remembers(asks[..n], last, oks[..n])
    requires oks[n] == T.MayAsk(last, min, asks[n].id, asks[n].now)
    ensures oks[n] <==> Quiet(min, asks, oks, n, asks[n])
  {
    MayAskIff(min, asks[..n], last, oks[..n], asks[n]);
    assert forall i :: 0 <= i < n ==> oks[..n][i] == oks[i] && asks[..n][i] == asks[i];
  }

  /** A request passes if and only if no request for the same stream passed within the minimum
      interval before it. */
  lemma PassesIff(min: int, asks: seq<Ask>, n: nat)
    requires min > 0 && Rising(asks) && n < |asks|
    ensures var oks := Asked(min, asks).1; |oks| == |asks| && (oks[n] <==> Quiet(min, asks, oks, n, asks[n]))
  {
    AskedPrefix(min, asks, n);
    AskedPrefix(min, asks, n + 1);
    AskedAt(min, asks, n);
    AskedRemembers(min, asks[..n]);
    var oks, last := Asked(min, asks).1, Asked(min, asks[..n]).0;
    assert oks[n] == oks[..n + 1][n] == T.MayAsk(last, min, asks[n].id, asks[n].now);
    PassesFrom(min, asks, oks, last, n);
  }
}
