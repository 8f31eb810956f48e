/**
 The transmitter's operations on the store: stream management, emitting and verifying
 events, a push delivery pass and a poll. Each is proved to take the step that the runs of
 `SignalsRuns` are made of. Signing, endpoint checks and push answers are inputs.
 */
module SignalsTransmitter {
  import opened Options
  import opened Orders
  import opened Lists
  import opened SignalsStore
  import opened SignalsRuns
  import opened SignalsPoll
  import opened Backoff

  // ---------------------------------------------------------------- stream requests

  /** Both spellings of each delivery method. */
  function NormalizeMethod(m: string): Option<Method>
  {
    if m in {"https://schemas.openid.net/secevent/risc/delivery-method/push", "urn:ietf:rfc:8935"}
    then Some(Push)
    else if m in {"https://schemas.openid.net/secevent/risc/delivery-method/poll", "urn:ietf:rfc:8936"}
    then Some(Method.Poll)
    else None
  }

  /** A requested delivery; endpointOk is the verdict on a push endpoint. */
  datatype Delivery = Delivery(name: string, endpointOk: bool)

  function ApplyDelivery(s: Stream, d: Option<Delivery>): Option<Stream>
  {
    if d.None? then Some(s)
    else
      var m := NormalizeMethod(d.value.name);
      if m.None? || (m.value == Push && !d.value.endpointOk) then None else Some(s.(via := m.value))
  }

  function Supported(requested: seq<string>, supported: seq<string>): seq<string>
  {
    if requested == [] then []
    else
      var n := |requested| - 1;
      Supported(requested[..n], supported) + (if requested[n] in supported then [requested[n]] else [])
  }

  /** The events a stream gets: everything supported when nothing is asked for. */
  function DeliveredFor(requested: seq<string>, supported: seq<string>): seq<string>
  {
    if requested == [] then supported else Supported(requested, supported)
  }

  /** A stream as a PATCH (or, with `replace`, a PUT) leaves it. */
  function Patched(s: Stream, replace: bool, requested: Option<seq<string>>, d: Option<Delivery>,
                   supported: seq<string>): Option<Stream>
  {
    var events := if requested.Some? then requested.value else [];
    ApplyDelivery(if replace || requested.Some? then s.(delivered := DeliveredFor(events, supported)) else s, d)
  }

  // ---------------------------------------------------------------- emitting

  /** An event to emit; `keys` are the keys of its subject and of the subject's members, and
      are empty for an event without subject. */
  datatype Event = Event(kind: string, keys: seq<string>)

  /** A stream without registered subjects receives everything, otherwise one of the keys
      must be registered. */
  predicate SubjectMatches(subjects: map<string, set<string>>, stream: string, ev: Event)
  {
    var registered := if stream in subjects then subjects[stream] else {};
    registered == {} || ev.keys == [] || exists k :: k in ev.keys && k in registered
  }

  predicate Wants(subjects: map<string, set<string>>, stream: Stream, ev: Event)
  {
    stream.status != Disabled && ev.kind in stream.delivered && SubjectMatches(subjects, stream.id, ev)
  }

  ghost function WantedBy(subjects: map<string, set<string>>, stream: Stream): Event -> seq<Stream>
  {
    (ev: Event) => if Wants(subjects, stream, ev) then [stream] else []
  }

  ghost function WantedFor(s: State, events: seq<Event>): string -> seq<Stream>
  {
    (id: string) => if id in s.streams then FlatMap(events, WantedBy(s.subjects, s.streams[id])) else []
  }

  /** One stream for each SET that emitting the events queues: stream by stream in id order,
      and event by event. */
  ghost function Targets(s: State, events: seq<Event>): seq<Stream>
  {
    LexIsLinear(s.streams.Keys);
    FlatMap(Arrange(s.streams.Keys, LexLess), WantedFor(s, events))
  }

  /** The random ids, the token and the time of the i-th SET that a call makes; signing it may
      fail. */
  datatype Minted = Minted(id: string, jti: string, token: string, at: int, signed: bool)

  function NewSet(stream: Stream, m: Minted): Pending
  {
    Pending(m.id, stream.id, m.jti, m.token, stream.via == Push, 0, m.at, m.at)
  }

  /** The SETs for a list of targets, without those that could not be signed. */
  ghost function Batch(targets: seq<Stream>, mint: nat -> Minted): seq<Pending>
  {
    if targets == [] then []
    else
      var n := |targets| - 1;
      Batch(targets[..n], mint) + (if mint(n).signed then [NewSet(targets[n], mint(n))] else [])
  }

  lemma BatchSnoc(targets: seq<Stream>, t: Stream, mint: nat -> Minted)
    ensures var m := mint(|targets|);
            Batch(targets + [t], mint) == Batch(targets, mint) + (if m.signed then [NewSet(t, m)] else [])
  {
    assert (targets + [t])[..|targets|] == targets;
  }

  ghost predicate MadeFor(targets: seq<Stream>, mint: nat -> Minted, p: Pending)
  {
    exists j: nat :: j < |targets| && p == NewSet(targets[j], mint(j))
  }

  ghost predicate AllApart(ps: seq<Pending>)
  {
    forall i, j :: 0 <= i < j < |ps| ==> Apart(ps[i], ps[j])
  }

  /** Random ids: no two of them are equal. */
  ghost predicate DistinctMints(mint: nat -> Minted)
  {
    forall i: nat, j: nat :: i < j ==> mint(i).id != mint(j).id && mint(i).jti != mint(j).jti
  }

  /** Every SET of a batch is made for one of the targets, and their ids differ. */
  lemma {:induction false} BatchIds(targets: seq<Stream>, mint: nat -> Minted)
    requires DistinctMints(mint)
    ensures forall p :: p in Batch(targets, mint) ==> MadeFor(targets, mint, p)
    ensures AllApart(Batch(targets, mint))
  {
    if targets != [] {
      var n := |targets| - 1;
      var before, last := Batch(targets[..n], mint), NewSet(targets[n], mint(n));
      BatchIds(targets[..n], mint);
      forall p | p in before
        ensures MadeFor(targets, mint, p) && Apart(p, last)
      {
        var j: nat :| j < n && p == NewSet(targets[..n][j], mint(j));
        assert targets[..n][j] == targets[j];
      }
      assert MadeFor(targets, mint, last);
    }
  }

  /** Filing SETs one after the other. */
  function Filed(queue: SignalsStore.Queue, ps: seq<Pending>): SignalsStore.Queue
  {
    if ps == [] then queue else Filed(queue, ps[..|ps| - 1])[ps[|ps| - 1].id := ps[|ps| - 1]]
  }

  lemma FiledSnoc(queue: SignalsStore.Queue, ps: seq<Pending>, p: Pending)
    ensures Filed(queue, ps + [p]) == Filed(queue, ps)[p.id := p]
  {
    assert (ps + [p])[..|ps|] == ps;
  }

  lemma FileNext(q0: SignalsStore.Queue, made: seq<Stream>, t: Stream, mint: nat -> Minted)
    ensures var p := NewSet(t, mint(|made|));
            Filed(q0, Batch(made + [t], mint)) ==
            if mint(|made|).signed then Filed(q0, Batch(made, mint))[p.id := p] else Filed(q0, Batch(made, mint))
  {
    BatchSnoc(made, t, mint);
    FiledSnoc(q0, Batch(made, mint), NewSet(t, mint(|made|)));
    assert Batch(made, mint) + [] == Batch(made, mint);
  }

  lemma {:induction false} FiledIsEnqueue(w: World, ps: seq<Pending>)
    ensures EnqueueAll(w, ps).s == w.s.(queue := Filed(w.s.queue, ps))
  {
    if ps != [] {
      FiledIsEnqueue(w, ps[..|ps| - 1]);
    }
  }

  // ---------------------------------------------------------------- the transmitter

  datatype Tally = Tally(delivered: nat, retried: nat, dropped: nat)

  /** A SET dropped for want of its stream is not counted. */
  function Count(v: Verdict, t: Tally): Tally
  {
    match v
    case Skip => t
    case Again(_, _) => t.(retried := t.retried + 1)
    case Gone(fate) =>
      if fate == Delivered then t.(delivered := t.delivered + 1)
      else if fate == Dropped then t.(dropped := t.dropped + 1) else t
  }

  function Tallied(cfg: Config, streams: map<string, Stream>, due: seq<Pending>, now: int,
                   answers: string -> Answer): Tally
  {
    if due == [] then Tally(0, 0, 0)
    else
      var n := |due| - 1;
      Count(Judge(cfg, streams, due[n], now, answers(due[n].id)), Tallied(cfg, streams, due[..n], now, answers))
  }

  /** A verification event may be asked for again: none was within the minimum interval. */
  predicate MayAsk(last: map<string, int>, min: int, id: string, now: int)
  {
    !(min > 0 && id in last && now - last[id] < min)
  }

  class Transmitter {
    const store: MemoryStore
    const cfg: Config
    const supported: seq<string>
    const minVerification: int
    const maxPollEvents: nat
    var lastVerify: map<string, int>

    constructor (store: MemoryStore, cfg: Config, supported: seq<string>, minVerification: int, maxPollEvents: nat)
      ensures this.store == store && this.cfg == cfg && lastVerify == map[]
    {
      this.store, this.cfg, this.supported := store, cfg, supported;
      this.minVerification, this.maxPollEvents, lastVerify := minVerification, maxPollEvents, map[];
    }

    /** Stream creation; without a requested delivery it is push with no endpoint, which the
        endpoint check refuses. */
    method CreateStream(id: string, receiver: string, requested: seq<string>, delivery: Option<Delivery>)
      returns (ok: bool)
      modifies store
      ensures var d := if delivery.Some? then delivery
                       else Some(Delivery("https://schemas.openid.net/secevent/risc/delivery-method/push", false));
              var s := ApplyDelivery(Stream(id, receiver, Push, Enabled, DeliveredFor(requested, supported)), d);
              && ok == s.Some?
              && (ok ==> forall w: World :: w.s == old(store.Value()) ==>
                           store.Value() == Next(cfg, w, Create(s.value)).s)
              && (!ok ==> store.Value() == old(store.Value()))
    {
      var d := if delivery.Some? then delivery.value
               else Delivery("https://schemas.openid.net/secevent/risc/delivery-method/push", false);
      var s := ApplyDelivery(Stream(id, receiver, Push, Enabled, DeliveredFor(requested, supported)), Some(d));
      if s.None? {
        return false;
      }
      store.CreateStream(s.value);
      return true;
    }

    /** PATCH and PUT of a stream by its receiver. */
    method UpdateStream(id: string, receiver: string, replace: bool, requested: Option<seq<string>>,
                        delivery: Option<Delivery>) returns (ok: bool)
      requires forall k :: k in store.streams ==> store.streams[k].id == k
      modifies store
      ensures ok <==> Owns(old(store.Value()), id, receiver)
                      && Patched(old(store.streams)[id], replace, requested, delivery, supported).Some?
      ensures !ok ==> store.Value() == old(store.Value())
      ensures ok ==> forall w: World :: w.s == old(store.Value()) ==>
                var s := Patched(old(store.streams)[id], replace, requested, delivery, supported);
                store.Value() == Next(cfg, w, Update(s.value, receiver)).s
    {
      if !(id in store.streams && store.streams[id].receiver == receiver) {
        return false;
      }
      var s := store.streams[id];
      if replace || requested.Some? {
        s := s.(delivered := DeliveredFor(if requested.Some? then requested.value else [], supported));
      }
      var s' := ApplyDelivery(s, delivery);
      if s'.None? {
        return false;
      }
      var _ := store.UpdateStream(s'.value);
      return true;
    }

    method SetStatus(id: string, receiver: string, status: Status) returns (ok: bool)
      requires forall k :: k in store.streams ==> store.streams[k].id == k
      modifies store
      ensures ok <==> Owns(old(store.Value()), id, receiver)
      ensures forall w: World :: w.s == old(store.Value()) ==>
                store.Value() == Next(cfg, w, SignalsRuns.SetStatus(id, receiver, status)).s
    {
      if !(id in store.streams && store.streams[id].receiver == receiver) {
        return false;
      }
      var _ := store.UpdateStream(store.streams[id].(status := status));
      return true;
    }

    method DeleteStream(id: string, receiver: string) returns (ok: bool)
      modifies store
      ensures ok <==> Owns(old(store.Value()), id, receiver)
      ensures forall w: World :: w.s == old(store.Value()) ==> store.Value() == Next(cfg, w, Delete(id, receiver)).s
    {
      if !(id in store.streams && store.streams[id].receiver == receiver) {
        return false;
      }
      store.DeleteStream(id);
      return true;
    }

    /** A receiver registers a subject of its stream, or takes it back; `valid` is the verdict on
        the subject, asked for after the owner has been checked. */
    method SetSubject(id: string, receiver: string, valid: bool, key: string, add: bool) returns (ok: bool)
      modifies store
      ensures ok <==> Owns(old(store.Value()), id, receiver) && valid
      ensures !ok ==> store.Value() == old(store.Value())
      ensures ok ==> forall w: World :: w.s == old(store.Value()) ==>
                store.Value() == Next(cfg, w, Subject(id, receiver, key, add)).s
    {
      if !(id in store.streams && store.streams[id].receiver == receiver) {
        return false;
      }
      if !valid {
        return false;
      }
      store.SetSubject(id, key, add);
      return true;
    }

    /** A verification event is due: the stream exists and asked for none too recently. */
    ghost predicate MayVerify(id: string, now: int)
      reads this, store
    {
      id in store.streams && MayAsk(lastVerify, minVerification, id, now)
    }

    /** Queues a verification event unless one was asked for too recently, or signing fails. */
    method VerifyStream(id: string, m: Minted, now: int) returns (ok: bool)
      modifies store, this
      ensures ok <==> old(MayVerify(id, now)) && m.signed
      ensures !ok ==> store.Value() == old(store.Value())
      ensures ok ==> forall w: World :: w.s == old(store.Value()) ==>
                var e := SignalsRuns.Queue([NewSet(old(store.streams)[id], m)]);
                && store.Value() == Next(cfg, w, e).s
                && (old(store.streams)[id].id == id && m.id !in w.all && m.jti !in w.jtis ==> Possible(w, e))
      ensures lastVerify ==
              if old(MayVerify(id, now)) && minVerification > 0 then old(lastVerify)[id := now] else old(lastVerify)
    {
      if id !in store.streams {
        return false;
      }
      if minVerification > 0 {
        if id in lastVerify && now - lastVerify[id] < minVerification {
          return false;
        }
        lastVerify := lastVerify[id := now];
      }
      if !m.signed {
        return false;
      }
      ghost var s := store.Value();
      var p := NewSet(store.streams[id], m);
      store.Enqueue(p);
      forall w: World | w.s == s
        ensures store.Value() == Next(cfg, w, SignalsRuns.Queue([p])).s
      {
        FiledIsEnqueue(w, [p]);
      }
      return true;
    }

    /** Queues one event for a stream if the stream wants it, and goes on if signing fails. */
    method EmitOne(stream: Stream, ev: Event, mint: nat -> Minted,
                   ghost made: seq<Stream>, k: nat, ghost q0: SignalsStore.Queue)
      returns (k': nat)
      requires k == |made| && store.queue == Filed(q0, Batch(made, mint))
      modifies store
      ensures var more := WantedBy(old(store.subjects), stream)(ev);
              && k' == |made + more| && store.streams == old(store.streams) && store.subjects == old(store.subjects)
              && store.queue == Filed(q0, Batch(made + more, mint))
    {
      k' := k;
      assert made + [] == made;
      if Wants(store.subjects, stream, ev) {
        FileNext(q0, made, stream, mint);
        if mint(k).signed {
          store.Enqueue(NewSet(stream, mint(k)));
        }
        k' := k + 1;
      }
    }

    /** Queues the events one stream wants. */
    method EmitTo(stream: Stream, events: seq<Event>, mint: nat -> Minted,
                  ghost done: seq<Stream>, k: nat, ghost q0: SignalsStore.Queue)
      returns (k': nat)
      requires k == |done| && store.queue == Filed(q0, Batch(done, mint))
      modifies store
      ensures var more := FlatMap(events, WantedBy(old(store.subjects), stream));
              && k' == |done + more| && store.streams == old(store.streams) && store.subjects == old(store.subjects)
              && store.queue == Filed(q0, Batch(done + more, mint))
    {
      ghost var s := store.Value();
      ghost var piece, made, more := WantedBy(s.subjects, stream), done, [];
      k' := k;
      assert done + [] == done;
      for i := 0 to |events|
        invariant store.streams == s.streams && store.subjects == s.subjects
        invariant more == FlatMap(events[..i], piece) && made == done + more && k' == |made|
        invariant store.queue == Filed(q0, Batch(made, mint))
      {
        FlatMapSnoc(events, i, piece);
        ghost var one := piece(events[i]);
        k' := EmitOne(stream, events[i], mint, made, k', q0);
        assert made + one == done + (more + one);
        made, more := made + one, more + one;
      }
      assert events[..|events|] == events;
    }

    /** Queues one SET for every stream and event that go together, apart from those that could
        not be signed. */
    method Emit(events: seq<Event>, mint: nat -> Minted) returns (n: nat)
      modifies store
      ensures var targets := Targets(old(store.Value()), events);
              && n == |targets|
              && forall w: World :: w.s == old(store.Value()) ==>
                   store.Value() == Next(cfg, w, SignalsRuns.Queue(Batch(targets, mint))).s
    {
      ghost var s := store.Value();
      var ids := SortedIds();
      ghost var piece, made := WantedFor(s, events), [];
      ghost var q0 := store.queue;
      n := 0;
      for i := 0 to |ids|
        invariant store.streams == s.streams && store.subjects == s.subjects
        invariant made == FlatMap(ids[..i], piece) && n == |made|
        invariant store.queue == Filed(q0, Batch(made, mint))
      {
        FlatMapSnoc(ids, i, piece);
        n := EmitTo(store.streams[ids[i]], events, mint, made, n, q0);
        made := made + piece(ids[i]);
      }
      assert ids[..|ids|] == ids;
      assert made == Targets(s, events);
      forall w: World | w.s == s
        ensures store.Value() == Next(cfg, w, SignalsRuns.Queue(Batch(made, mint))).s
      {
        FiledIsEnqueue(w, Batch(made, mint));
      }
    }

    /** A pass over the due SETs. */
    method DeliverDue(now: int, answers: string -> Answer, ghost w: World) returns (tally: Tally)
      requires Keyed(store.queue) && w.s == store.Value()
      modifies store
      ensures store.Value() == Next(cfg, w, Deliver(now, answers)).s
      ensures tally == Tallied(cfg, w.s.streams, Take(InOrder(w.s.queue, Due(now)), PASS_LIMIT), now, answers)
    {
      var due := store.DuePush(now, PASS_LIMIT);
      tally := DeliverList(due, now, answers, w);
    }

    /** SET by SET. Streams are looked up once and remembered for the pass. */
    method DeliverList(due: seq<Pending>, now: int, answers: string -> Answer, ghost w: World) returns (tally: Tally)
      requires w.s == store.Value()
      modifies store
      ensures store.Value() == DeliverAll(cfg, w, due, now, answers).s
      ensures tally == Tallied(cfg, w.s.streams, due, now, answers)
    {
      var known: map<string, Stream> := map[];
      tally := Tally(0, 0, 0);
      ghost var v := w;
      for i := 0 to |due|
        invariant v == DeliverAll(cfg, w, due[..i], now, answers) && store.Value() == v.s
        invariant v.s.streams == w.s.streams
        invariant forall k :: k in known ==> k in w.s.streams && known[k] == w.s.streams[k]
        invariant tally == Tallied(cfg, w.s.streams, due[..i], now, answers)
      {
        assert due[..i + 1][..i] == due[..i];
        known, tally := DeliverItem(due[i], now, answers(due[i].id), known, tally, v);
        v := DeliverOne(cfg, v, due[i], now, answers(due[i].id));
      }
      assert due[..|due|] == due;
    }

    method DeliverItem(p: Pending, now: int, answer: Answer, known: map<string, Stream>, before: Tally, ghost v: World)
      returns (known': map<string, Stream>, tally: Tally)
      requires v.s == store.Value()
      requires forall k :: k in known ==> k in v.s.streams && known[k] == v.s.streams[k]
      modifies store
      ensures store.Value() == DeliverOne(cfg, v, p, now, answer).s && store.streams == v.s.streams
      ensures forall k :: k in known' ==> k in v.s.streams && known'[k] == v.s.streams[k]
      ensures tally == Count(Judge(cfg, v.s.streams, p, now, answer), before)
    {
      known', tally := known, before;
      if p.stream !in known && p.stream in store.streams {
        known' := known[p.stream := store.streams[p.stream]];
      }
      if p.stream !in known' {
        store.Drop(p.id);
      } else if known'[p.stream].status == Enabled && known'[p.stream].via == Push {
        tally := PushOne(p, now, answer, v, before);
      }
    }

    /** One push and what follows from its answer. */
    method PushOne(p: Pending, now: int, answer: Answer, ghost v: World, before: Tally) returns (tally: Tally)
      requires v.s == store.Value() && Pushable(v.s.streams, p)
      modifies store
      ensures store.Value() == DeliverOne(cfg, v, p, now, answer).s
      ensures tally == Count(Judge(cfg, v.s.streams, p, now, answer), before)
    {
      if answer == Acknowledged {
        store.Drop(p.id);
        return before.(delivered := before.delivered + 1);
      }
      if answer == Transient && p.attempts + 1 < cfg.maxAttempts {
        var n := p.attempts + 1;
        var delay := Delay(cfg.base, cfg.cap, n);
        store.MarkAttempt(p.id, n, now + delay);
        return before.(retried := before.retried + 1);
      }
      store.Drop(p.id);
      return before.(dropped := before.dropped + 1);
    }

    method Acknowledge(id: string, toAck: seq<string>)
      modifies store
      ensures store.Value() == AfterAck(old(store.Value()), id, toAck)
    {
      if |toAck| > 0 {
        var _ := store.Ack(id, toAck);
      } else {
        assert Without(store.queue, Acked(id, toAck)) == store.queue;
      }
    }

    method FirstPage(id: string, max: nat) returns (page: seq<Pending>, more: bool)
      requires Keyed(store.queue)
      ensures (page, more) == Page(store.Value(), id, max)
    {
      page := store.PendingOf(id, max + 1);
      more := false;
      if |page| > max {
        page, more := page[..max], true;
      }
    }

    /** The page size: what was asked for, up to the configured maximum. */
    function PageSize(maxEvents: Option<int>): (n: nat)
      ensures n <= maxPollEvents
      ensures maxEvents.Some? && 0 <= maxEvents.value <= maxPollEvents ==> n == maxEvents.value
      ensures maxEvents.None? || maxEvents.value < 0 ==> n == maxPollEvents
    {
      if maxEvents.Some? && 0 <= maxEvents.value < maxPollEvents then maxEvents.value else maxPollEvents
    }

    /** One poll: acknowledges processed and refused SETs, then returns the oldest ones of an
        enabled stream. The result is None for a stream of another receiver or method. */
    method Poll(id: string, receiver: string, acks: seq<string>, refused: seq<string>, maxEvents: Option<int>)
      returns (r: Option<(seq<Pending>, bool)>)
      requires Keyed(store.queue)
      modifies store
      ensures Keyed(store.queue)
      ensures r.Some? <==> Owns(old(store.Value()), id, receiver) && old(store.streams)[id].via == Method.Poll
      ensures store.Value() == if r.Some? then AfterAck(old(store.Value()), id, acks + refused) else old(store.Value())
      ensures forall w: World :: w.s == old(store.Value()) ==>
                store.Value() == Next(cfg, w, SignalsRuns.Poll(id, receiver, acks + refused)).s
      ensures r.Some? ==> r.value == Reply(store.Value(), id, PageSize(maxEvents))
    {
      if !(id in store.streams && store.streams[id].receiver == receiver) || store.streams[id].via != Method.Poll {
        return None;
      }
      Acknowledge(id, acks + refused);
      var max := maxPollEvents;
      if maxEvents.Some? && 0 <= maxEvents.value < max {
        max := maxEvents.value;
      }
      if store.streams[id].status == Enabled && max > 0 {
        var page, more := FirstPage(id, max);
        return Some((page, more));
      }
      return Some(([], false));
    }

    method SortedIds() returns (ids: seq<string>)
      ensures Linear(store.streams.Keys, LexLess) && ids == Arrange(store.streams.Keys, LexLess)
    {
      ids := [];
      var todo := store.streams.Keys;
      while todo != {}
        invariant todo <= store.streams.Keys && Distinct(ids)
        invariant forall id :: id in ids <==> id in store.streams && id !in todo
        decreases |todo|
      {
        var id :| id in todo;
        ids, todo := ids + [id], todo - {id};
      }
      assert Elements(ids) == store.streams.Keys;
      LexIsLinear(store.streams.Keys);
      SortArranges(ids, LexLess);
      ids := Sort(ids, LexLess);
    }
  }

  // ---------------------------------------------------------------- what emitting means

  /** The stream registered no subject, or the event has none, or one of its keys is registered. */
  ghost predicate Concerns(s: State, id: string, ev: Event)
  {
    || id !in s.subjects || s.subjects[id] == {} || ev.keys == []
    || exists k :: k in ev.keys && k in s.subjects[id]
  }

  lemma WantsIff(s: State, stream: Stream, ev: Event)
    ensures Wants(s.subjects, stream, ev) <==>
            stream.status != Disabled && ev.kind in stream.delivered && Concerns(s, stream.id, ev)
  {
  }

  /** A stream gets a SET for an event exactly when it exists and is not disabled, delivers events
      of this type, and the event concerns one of its subjects. */
  lemma TargetsMeaning(s: State, events: seq<Event>, stream: Stream)
    requires forall k :: k in s.streams ==> s.streams[k].id == k
    ensures stream in Targets(s, events) <==>
            && stream.id in s.streams && s.streams[stream.id] == stream && stream.status != Disabled
            && exists ev :: ev in events && ev.kind in stream.delivered && Concerns(s, stream.id, ev)
  {
    forall ev
      ensures Wants(s.subjects, stream, ev) <==>
              stream.status != Disabled && ev.kind in stream.delivered && Concerns(s, stream.id, ev)
    {
      WantsIff(s, stream, ev);
    }
    WantingTargets(s, events, stream);
  }

  lemma WantingTargets(s: State, events: seq<Event>, stream: Stream)
    requires forall k :: k in s.streams ==> s.streams[k].id == k
    ensures stream in Targets(s, events) <==>
            && stream.id in s.streams && s.streams[stream.id] == stream
            && exists ev :: ev in events && Wants(s.subjects, stream, ev)
  {
    LexIsLinear(s.streams.Keys);
    var ids, piece := Arrange(s.streams.Keys, LexLess), WantedFor(s, events);
    FlatMapMember(ids, piece, stream);
    forall id | id in ids
      ensures stream in piece(id) <==>
              s.streams[id] == stream && exists ev :: ev in events && Wants(s.subjects, stream, ev)
    {
      FlatMapMember(events, WantedBy(s.subjects, s.streams[id]), stream);
      assert forall ev :: stream in WantedBy(s.subjects, s.streams[id])(ev) <==>
                          s.streams[id] == stream && Wants(s.subjects, stream, ev);
    }
    if stream in Targets(s, events) {
      var id :| id in ids && stream in piece(id);
    }
    if stream.id in s.streams {
      assert stream.id in ids;
    }
  }

  /** Emitting is a step of a run: with new random ids its SETs are fit to be queued. */
  lemma EmitPossible(w: World, events: seq<Event>, mint: nat -> Minted)
    requires forall k :: k in w.s.streams ==> w.s.streams[k].id == k
    requires DistinctMints(mint) && forall i: nat :: mint(i).id !in w.all && mint(i).jti !in w.jtis
    ensures Possible(w, SignalsRuns.Queue(Batch(Targets(w.s, events), mint)))
  {
    var targets := Targets(w.s, events);
    var ps := Batch(targets, mint);
    BatchIds(targets, mint);
    forall i | 0 <= i < |ps|
      ensures NewFor(w.s, ps[i]) && Unused(w, ps[i])
    {
      assert ps[i] in ps;
      var j: nat :| j < |targets| && ps[i] == NewSet(targets[j], mint(j));
      TargetsMeaning(w.s, events, targets[j]);
    }
  }
}
