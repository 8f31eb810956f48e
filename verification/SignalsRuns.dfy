/**
 The Shared Signals transmitter as a state machine over the store: stream management, event
 emission, push delivery with retries (section 2 of RFC 8935) and poll acknowledgement
 (section 2 of RFC 8936). A ledger beside the store records what became of every SET.
 */
module SignalsRuns {
  import opened Options
  import opened SignalsStore
  import opened Backoff

  datatype Config = Config(maxAttempts: nat, base: int, cap: int)

  /** What one push attempt comes to. */
  datatype Answer = Acknowledged | Transient | Permanent

  datatype Fate = Delivered | Dropped | AckedByPoll | RemovedWithStream | Orphaned

  // ---------------------------------------------------------------- one push

  datatype Verdict = Skip | Gone(fate: Fate) | Again(attempts: nat, nextAt: int)

  function BackoffOf(cfg: Config, n: nat): int { DelayOf(cfg.base, cfg.cap, n) }

  predicate Pushable(streams: map<string, Stream>, p: Pending)
  {
    p.stream in streams && streams[p.stream].status == Enabled && streams[p.stream].via == Push
  }

  /** What a delivery pass at time `now` does with one due SET. */
  function Judge(cfg: Config, streams: map<string, Stream>, p: Pending, now: int, answer: Answer): Verdict
  {
    if p.stream !in streams then Gone(Orphaned)
    else if !Pushable(streams, p) then Skip
    else if answer == Acknowledged then Gone(Delivered)
    else if answer == Transient && p.attempts + 1 < cfg.maxAttempts
      then Again(p.attempts + 1, now + BackoffOf(cfg, p.attempts + 1))
    else Gone(Dropped)
  }

  // ---------------------------------------------------------------- the world

  /** The store, every SET id and every token id ever queued, what became of the SETs that left
      the queue, and when each was pushed. */
  datatype World = World(s: State, all: set<string>, jtis: set<string>, fates: map<string, Fate>,
                         pushes: map<string, seq<int>>)

  const START := World(SignalsStore.EMPTY, {}, {}, map[], map[])

  function PushTimes(w: World, id: string): seq<int> { if id in w.pushes then w.pushes[id] else [] }

  /** The SETs that satisfy `gone` leave the queue with one fate. */
  function Leave(w: World, gone: Pending -> bool, fate: Fate): World
  {
    w.(s := w.s.(queue := Without(w.s.queue, gone)),
       fates := w.fates + map id | id in w.s.queue && gone(w.s.queue[id]) :: fate)
  }

  function LeaveOne(w: World, id: string, fate: Fate): World
  {
    w.(s := w.s.(queue := w.s.queue - {id}), fates := if id in w.s.queue then w.fates[id := fate] else w.fates)
  }

  /** The world once a push of p is on record. */
  function Pushed(w: World, p: Pending, now: int): World
  {
    w.(pushes := w.pushes[p.id := PushTimes(w, p.id) + [now]])
  }

  /** The world in which a SET waits for its next attempt. */
  function Waiting(w: World, id: string, n: nat, t: int): World
  {
    w.(s := w.s.(queue := Marked(w.s.queue, id, n, t)))
  }

  /** One due SET of a delivery pass. */
  function DeliverOne(cfg: Config, w: World, p: Pending, now: int, answer: Answer): World
  {
    var w1 := if Pushable(w.s.streams, p) then Pushed(w, p, now) else w;
    match Judge(cfg, w.s.streams, p, now, answer)
    case Skip => w1
    case Gone(fate) => LeaveOne(w1, p.id, fate)
    case Again(n, t) => Waiting(w1, p.id, n, t)
  }

  function DeliverAll(cfg: Config, w: World, due: seq<Pending>, now: int, answers: string -> Answer): World
  {
    if due == [] then w
    else
      var n := |due| - 1;
      DeliverOne(cfg, DeliverAll(cfg, w, due[..n], now, answers), due[n], now, answers(due[n].id))
  }

  const PASS_LIMIT := 100

  /** A whole delivery pass. Sorting needs every SET filed under its own id, which no run
      violates. */
  ghost function Delivery(cfg: Config, w: World, now: int, answers: string -> Answer): World
  {
    if Keyed(w.s.queue)
    then DeliverAll(cfg, w, Take(InOrder(w.s.queue, Due(now)), PASS_LIMIT), now, answers)
    else w
  }

  function EnqueueOne(w: World, p: Pending): World
  {
    w.(s := w.s.(queue := w.s.queue[p.id := p]), all := w.all + {p.id}, jtis := w.jtis + {p.jti})
  }

  function EnqueueAll(w: World, ps: seq<Pending>): World
  {
    if ps == [] then w else EnqueueOne(EnqueueAll(w, ps[..|ps| - 1]), ps[|ps| - 1])
  }

  predicate Owns(s: State, id: string, receiver: string) { id in s.streams && s.streams[id].receiver == receiver }

  /** Requests of receivers, events of the host, and delivery passes. */
  datatype Event =
    | Create(stream: Stream)
    | Update(stream: Stream, receiver: string)
    | SetStatus(id: string, receiver: string, status: Status)
    | Delete(id: string, receiver: string)
    | Subject(id: string, receiver: string, key: string, add: bool)
    | Queue(sets: seq<Pending>)
    | Deliver(now: int, answers: string -> Answer)
    | Poll(id: string, receiver: string, acks: seq<string>)

  ghost function Next(cfg: Config, w: World, e: Event): World
  {
    match e
    case Create(stream) => w.(s := w.s.(streams := w.s.streams[stream.id := stream]))
    case Update(stream, receiver) => if Owns(w.s, stream.id, receiver) then w.(s := Updated(w.s, stream)) else w
    case SetStatus(id, receiver, status) =>
      if Owns(w.s, id, receiver) then w.(s := Updated(w.s, w.s.streams[id].(status := status))) else w
    case Delete(id, receiver) =>
      if Owns(w.s, id, receiver)
      then Leave(w, OfStream(id), RemovedWithStream).(s := Deleted(w.s, id))
      else w
    case Subject(id, receiver, key, add) =>
      if Owns(w.s, id, receiver) then w.(s := WithSubject(w.s, id, key, add)) else w
    case Queue(sets) => EnqueueAll(w, sets)
    case Deliver(now, answers) => Delivery(cfg, w, now, answers)
    case Poll(id, receiver, acks) =>
      if Owns(w.s, id, receiver) && w.s.streams[id].via == Method.Poll
      then Leave(w, Acked(id, acks), AckedByPoll) else w
  }

  /** A SET as the transmitter queues it for a stream. */
  ghost predicate NewFor(s: State, p: Pending)
  {
    && p.stream in s.streams && p.push == (s.streams[p.stream].via == Push)
    && p.attempts == 0 && p.nextAt == p.createdAt
  }

  ghost predicate Unused(w: World, p: Pending) { p.id !in w.all && p.jti !in w.jtis }

  predicate Apart(p: Pending, q: Pending) { p.id != q.id && p.jti != q.jti }

  /** What the environment guarantees: random ids are new. */
  ghost predicate Possible(w: World, e: Event)
  {
    match e
    case Create(stream) => stream.id !in w.s.streams
    case Queue(sets) =>
      && (forall i :: 0 <= i < |sets| ==> NewFor(w.s, sets[i]) && Unused(w, sets[i]))
      && forall i, j :: 0 <= i < j < |sets| ==> Apart(sets[i], sets[j])
    case _ => true
  }

  // ---------------------------------------------------------------- the invariant

  /** Pushes of one SET: at most MaxAttempts, each at least the backoff after the last. */
  ghost predicate Spaced(cfg: Config, times: seq<int>)
  {
    && |times| <= cfg.maxAttempts
    && forall i :: 0 < i < |times| ==> times[i - 1] + BackoffOf(cfg, i) <= times[i]
  }

  /** A queued SET belongs to an existing stream, carries that stream's method, and has been
      pushed `attempts` times; the next push waits for the backoff. */
  ghost predicate GoodSet(cfg: Config, w: World, id: string)
    requires id in w.s.queue
  {
    var p := w.s.queue[id];
    && p.id == id
    && p.stream in w.s.streams && p.push == (w.s.streams[p.stream].via == Push)
    && |PushTimes(w, id)| == p.attempts < cfg.maxAttempts
    && (p.attempts > 0 ==> p.nextAt == PushTimes(w, id)[p.attempts - 1] + BackoffOf(cfg, p.attempts))
  }

  /** All queued SETs but possibly one are good. */
  ghost predicate GoodQueue(cfg: Config, w: World, but: Option<string>)
  {
    && (forall id :: id in w.s.streams ==> w.s.streams[id].id == id)
    && forall id :: id in w.s.queue && but != Some(id) ==> GoodSet(cfg, w, id)
  }

  /** Every SET ever queued is still queued, or has left with exactly one fate; none was
      found without its stream. */
  ghost predicate Ledger(w: World)
  {
    && w.all == w.s.queue.Keys + w.fates.Keys
    && w.s.queue.Keys !! w.fates.Keys
    && Orphaned !in w.fates.Values
  }

  ghost predicate Records(cfg: Config, w: World)
  {
    w.pushes.Keys <= w.all && forall id :: id in w.pushes ==> Spaced(cfg, w.pushes[id])
  }

  /** No two queued SETs share a token id. */
  ghost predicate Tokens(queue: SignalsStore.Queue, jtis: set<string>)
  {
    && (forall id :: id in queue ==> queue[id].jti in jtis)
    && forall a, b :: a in queue && b in queue && queue[a].jti == queue[b].jti ==> a == b
  }

  ghost predicate Inv(cfg: Config, w: World)
  {
    GoodQueue(cfg, w, None) && Ledger(w) && Records(cfg, w) && Tokens(w.s.queue, w.jtis)
  }

  /** Fates are final. */
  ghost predicate Final(w: World, w': World)
  {
    w.all <= w'.all && forall id :: id in w.fates ==> id in w'.fates && w'.fates[id] == w.fates[id]
  }

  // ---------------------------------------------------------------- each step keeps it

  ghost function Leaving(queue: SignalsStore.Queue, gone: Pending -> bool): set<string>
  {
    set id | id in queue && gone(queue[id])
  }

  /** Token ids stay distinct as long as none is added or changed. */
  lemma TokensStay(queue: SignalsStore.Queue, queue': SignalsStore.Queue, jtis: set<string>)
    requires Tokens(queue, jtis)
    requires forall id :: id in queue' ==> id in queue && queue'[id].jti == queue[id].jti
    ensures Tokens(queue', jtis)
  {
  }

  lemma LeaveLedger(w: World, gone: Pending -> bool, fate: Fate)
    requires Ledger(w) && fate != Orphaned
    ensures Ledger(Leave(w, gone, fate)) && Final(w, Leave(w, gone, fate))
  {
    var w', g := Leave(w, gone, fate), Leaving(w.s.queue, gone);
    assert w'.s.queue.Keys == w.s.queue.Keys - g;
    assert w'.fates.Keys == w.fates.Keys + g;
    assert w'.fates.Values <= w.fates.Values + {fate};
  }

  /** A queued SET stays good when neither it, its stream nor its pushes change. */
  lemma GoodStays(cfg: Config, w: World, w': World, id: string)
    requires id in w.s.queue && GoodSet(cfg, w, id)
    requires id in w'.s.queue && w'.s.queue[id] == w.s.queue[id] && w'.pushes == w.pushes
    requires var stream := w.s.queue[id].stream;
             stream in w'.s.streams && w'.s.streams[stream] == w.s.streams[stream]
    ensures GoodSet(cfg, w', id)
  {
    assert PushTimes(w', id) == PushTimes(w, id);
  }

  lemma LeaveKeeps(cfg: Config, w: World, gone: Pending -> bool, fate: Fate)
    requires Inv(cfg, w) && fate != Orphaned
    ensures Inv(cfg, Leave(w, gone, fate)) && Final(w, Leave(w, gone, fate))
  {
    LeaveLedger(w, gone, fate);
    var w' := Leave(w, gone, fate);
    TokensStay(w.s.queue, w'.s.queue, w.jtis);
    forall id | id in w'.s.queue
      ensures GoodSet(cfg, w', id)
    {
      GoodStays(cfg, w, w', id);
    }
  }

  /** Re-tagging keeps the flag of every SET equal to its stream's method. */
  lemma UpdatedSet(cfg: Config, w: World, stream: Stream, id: string)
    requires id in w.s.queue && GoodSet(cfg, w, id) && stream.id in w.s.streams
    ensures GoodSet(cfg, w.(s := Updated(w.s, stream)), id)
  {
    var p := w.s.queue[id];
    var w' := w.(s := Updated(w.s, stream));
    var p' := w'.s.queue[id];
    assert p' == if p.stream == stream.id then p.(push := stream.via == Push) else p;
    assert PushTimes(w', id) == PushTimes(w, id);
  }

  lemma UpdateKeeps(cfg: Config, w: World, stream: Stream)
    requires Inv(cfg, w) && stream.id in w.s.streams
    ensures Inv(cfg, w.(s := Updated(w.s, stream)))
  {
    var w' := w.(s := Updated(w.s, stream));
    assert w'.s.queue.Keys == w.s.queue.Keys;
    TokensStay(w.s.queue, w'.s.queue, w.jtis);
    forall id | id in w'.s.queue
      ensures GoodSet(cfg, w', id)
    {
      UpdatedSet(cfg, w, stream, id);
    }
  }

  /** A stream without queued SETs can go. */
  lemma StreamGone(cfg: Config, w: World, id: string, subjects: map<string, set<string>>)
    requires Inv(cfg, w) && forall q :: q in w.s.queue ==> w.s.queue[q].stream != id
    ensures Inv(cfg, w.(s := State(w.s.streams - {id}, subjects, w.s.queue)))
  {
    var w' := w.(s := State(w.s.streams - {id}, subjects, w.s.queue));
    forall q | q in w'.s.queue
      ensures GoodSet(cfg, w', q)
    {
      GoodStays(cfg, w, w', q);
    }
  }

  lemma DeleteKeeps(cfg: Config, w: World, id: string)
    requires Inv(cfg, w)
    ensures var w' := Leave(w, OfStream(id), RemovedWithStream).(s := Deleted(w.s, id));
            Inv(cfg, w') && Final(w, w')
  {
    var w1 := Leave(w, OfStream(id), RemovedWithStream);
    LeaveKeeps(cfg, w, OfStream(id), RemovedWithStream);
    StreamGone(cfg, w1, id, w.s.subjects - {id});
  }

  lemma EnqueueLedger(w: World, p: Pending)
    requires Ledger(w) && p.id !in w.all
    ensures Ledger(EnqueueOne(w, p)) && Final(w, EnqueueOne(w, p))
  {
    assert EnqueueOne(w, p).s.queue.Keys == w.s.queue.Keys + {p.id};
  }

  lemma EnqueueTokens(queue: SignalsStore.Queue, jtis: set<string>, p: Pending)
    requires Tokens(queue, jtis) && p.jti !in jtis
    ensures Tokens(queue[p.id := p], jtis + {p.jti})
  {
  }

  lemma EnqueueKeeps(cfg: Config, w: World, p: Pending)
    requires cfg.maxAttempts > 0 && Inv(cfg, w) && NewFor(w.s, p) && Unused(w, p)
    ensures Inv(cfg, EnqueueOne(w, p)) && Final(w, EnqueueOne(w, p))
  {
    EnqueueLedger(w, p);
    EnqueueTokens(w.s.queue, w.jtis, p);
    var w' := EnqueueOne(w, p);
    forall id | id in w'.s.queue
      ensures GoodSet(cfg, w', id)
    {
      if id != p.id {
        GoodStays(cfg, w, w', id);
      }
    }
  }

  lemma FinalTransitive(w: World, w': World, w'': World)
    requires Final(w, w') && Final(w', w'')
    ensures Final(w, w'')
  {
  }

  lemma {:induction false} EnqueueAllAdds(w: World, ps: seq<Pending>, p: Pending)
    requires Unused(w, p) && forall i :: 0 <= i < |ps| ==> Apart(ps[i], p)
    ensures EnqueueAll(w, ps).s.streams == w.s.streams && Unused(EnqueueAll(w, ps), p)
  {
    if ps != [] {
      EnqueueAllAdds(w, ps[..|ps| - 1], p);
    }
  }

  lemma {:induction false} EnqueueAllKeeps(cfg: Config, w: World, ps: seq<Pending>)
    requires cfg.maxAttempts > 0 && Inv(cfg, w) && Possible(w, Queue(ps))
    ensures Inv(cfg, EnqueueAll(w, ps)) && Final(w, EnqueueAll(w, ps))
  {
    if ps != [] {
      var n := |ps| - 1;
      EnqueueAllKeeps(cfg, w, ps[..n]);
      var w1 := EnqueueAll(w, ps[..n]);
      EnqueueAllAdds(w, ps[..n], ps[n]);
      EnqueueKeeps(cfg, w1, ps[n]);
      FinalTransitive(w, w1, EnqueueAll(w, ps));
    }
  }

  lemma OthersUnpushed(cfg: Config, w: World, p: Pending, now: int, id: string)
    requires id in w.s.queue && id != p.id && GoodSet(cfg, w, id)
    ensures GoodSet(cfg, Pushed(w, p, now), id)
  {
    assert PushTimes(Pushed(w, p, now), id) == PushTimes(w, id);
  }

  lemma PushRecorded(cfg: Config, w: World, p: Pending, now: int)
    requires Records(cfg, w) && p.id in w.all && |PushTimes(w, p.id)| == p.attempts < cfg.maxAttempts
    requires p.attempts > 0 ==> PushTimes(w, p.id)[p.attempts - 1] + BackoffOf(cfg, p.attempts) <= now
    ensures Records(cfg, Pushed(w, p, now))
  {
    var times := PushTimes(w, p.id);
    assert Spaced(cfg, times);
    assert Spaced(cfg, times + [now]);
  }

  lemma PushKeeps(cfg: Config, w: World, p: Pending, now: int)
    requires Inv(cfg, w) && p.id in w.s.queue && w.s.queue[p.id] == p && p.nextAt <= now
    ensures var w1 := Pushed(w, p, now);
            && GoodQueue(cfg, w1, Some(p.id)) && Ledger(w1) && Records(cfg, w1) && Tokens(w1.s.queue, w1.jtis)
            && |PushTimes(w1, p.id)| == p.attempts + 1 && PushTimes(w1, p.id)[p.attempts] == now
  {
    var w1 := Pushed(w, p, now);
    assert GoodSet(cfg, w, p.id);
    PushRecorded(cfg, w, p, now);
    forall id | id in w1.s.queue && id != p.id
      ensures GoodSet(cfg, w1, id)
    {
      OthersUnpushed(cfg, w, p, now, id);
    }
  }

  lemma LeaveOneKeeps(cfg: Config, w: World, id: string, fate: Fate)
    requires GoodQueue(cfg, w, Some(id)) && Ledger(w) && Records(cfg, w) && Tokens(w.s.queue, w.jtis)
    requires id in w.s.queue && fate != Orphaned
    ensures Inv(cfg, LeaveOne(w, id, fate)) && Final(w, LeaveOne(w, id, fate))
  {
    var w' := LeaveOne(w, id, fate);
    assert w'.s.queue.Keys == w.s.queue.Keys - {id} && w'.fates.Keys == w.fates.Keys + {id};
    assert w'.fates.Values <= w.fates.Values + {fate};
    TokensStay(w.s.queue, w'.s.queue, w.jtis);
    forall q | q in w'.s.queue
      ensures GoodSet(cfg, w', q)
    {
      GoodStays(cfg, w, w', q);
    }
  }

  lemma MarkedGood(cfg: Config, w: World, id: string, n: nat, t: int)
    requires id in w.s.queue
    requires var p := w.s.queue[id];
             p.id == id && p.stream in w.s.streams && p.push == (w.s.streams[p.stream].via == Push)
    requires 0 < n < cfg.maxAttempts && |PushTimes(w, id)| == n && t == PushTimes(w, id)[n - 1] + BackoffOf(cfg, n)
    ensures GoodSet(cfg, Waiting(w, id, n, t), id)
  {
    assert PushTimes(Waiting(w, id, n, t), id) == PushTimes(w, id);
  }

  lemma AgainKeeps(cfg: Config, w: World, id: string, n: nat, t: int)
    requires GoodQueue(cfg, w, Some(id)) && Ledger(w) && Records(cfg, w) && Tokens(w.s.queue, w.jtis)
    requires id in w.s.queue && GoodSet(cfg, Waiting(w, id, n, t), id)
    ensures Inv(cfg, Waiting(w, id, n, t))
  {
    var w' := Waiting(w, id, n, t);
    assert w'.s.queue.Keys == w.s.queue.Keys;
    TokensStay(w.s.queue, w'.s.queue, w.jtis);
    forall q | q in w'.s.queue
      ensures GoodSet(cfg, w', q)
    {
      if q != id {
        GoodStays(cfg, w, w', q);
      }
    }
  }

  lemma UnpushableSkipped(cfg: Config, w: World, p: Pending, now: int, answer: Answer)
    requires p.stream in w.s.streams && !Pushable(w.s.streams, p)
    ensures DeliverOne(cfg, w, p, now, answer) == w
  {
  }

  lemma GonePushed(cfg: Config, w: World, p: Pending, now: int, fate: Fate)
    requires Inv(cfg, w) && p.id in w.s.queue && w.s.queue[p.id] == p && p.nextAt <= now && fate != Orphaned
    ensures var w' := LeaveOne(Pushed(w, p, now), p.id, fate); Inv(cfg, w') && Final(w, w')
  {
    PushKeeps(cfg, w, p, now);
    LeaveOneKeeps(cfg, Pushed(w, p, now), p.id, fate);
  }

  lemma AgainPushed(cfg: Config, w: World, p: Pending, now: int, n: nat, t: int)
    requires Inv(cfg, w) && p.id in w.s.queue && w.s.queue[p.id] == p && p.nextAt <= now
    requires n == p.attempts + 1 < cfg.maxAttempts && t == now + BackoffOf(cfg, n)
    ensures Inv(cfg, Waiting(Pushed(w, p, now), p.id, n, t))
  {
    var w1 := Pushed(w, p, now);
    assert GoodSet(cfg, w, p.id);
    PushKeeps(cfg, w, p, now);
    MarkedGood(cfg, w1, p.id, n, t);
    AgainKeeps(cfg, w1, p.id, n, t);
  }

  lemma StreamsStay(cfg: Config, w: World, p: Pending, now: int, answer: Answer)
    ensures DeliverOne(cfg, w, p, now, answer).s.streams == w.s.streams
  {
  }

  /** What a push leaves, verdict by verdict. */
  lemma PushedVerdict(cfg: Config, w: World, p: Pending, now: int, answer: Answer)
    requires Pushable(w.s.streams, p)
    ensures var w' := DeliverOne(cfg, w, p, now, answer);
            match Judge(cfg, w.s.streams, p, now, answer)
            case Skip => false
            case Gone(fate) => fate != Orphaned && w' == LeaveOne(Pushed(w, p, now), p.id, fate)
            case Again(n, t) => && n == p.attempts + 1 < cfg.maxAttempts && t == now + BackoffOf(cfg, n)
                                && w' == Waiting(Pushed(w, p, now), p.id, n, t)
  {
  }

  /** One due SET: a push is recorded with its time, and the SET stays, or leaves once. */
  lemma DeliverOneKeeps(cfg: Config, w: World, p: Pending, now: int, answer: Answer)
    requires Inv(cfg, w) && p.id in w.s.queue && w.s.queue[p.id] == p && p.nextAt <= now
    ensures var w' := DeliverOne(cfg, w, p, now, answer);
            Inv(cfg, w') && Final(w, w') && w'.s.streams == w.s.streams
  {
    StreamsStay(cfg, w, p, now, answer);
    if !Pushable(w.s.streams, p) {
      assert GoodSet(cfg, w, p.id);
      UnpushableSkipped(cfg, w, p, now, answer);
    } else {
      PushedVerdict(cfg, w, p, now, answer);
      match Judge(cfg, w.s.streams, p, now, answer)
      case Gone(fate) => GonePushed(cfg, w, p, now, fate);
      case Again(n, t) => AgainPushed(cfg, w, p, now, n, t);
    }
  }

  /** A push touches no other SET. */
  lemma DeliverOneFrames(cfg: Config, w: World, p: Pending, now: int, answer: Answer, id: string)
    requires id != p.id && id in w.s.queue
    ensures var w' := DeliverOne(cfg, w, p, now, answer);
            id in w'.s.queue && w'.s.queue[id] == w.s.queue[id] && PushTimes(w', id) == PushTimes(w, id)
  {
  }

  ghost predicate DueIn(w: World, due: seq<Pending>, now: int)
  {
    && (forall i :: 0 <= i < |due| ==> due[i].id in w.s.queue && w.s.queue[due[i].id] == due[i] && due[i].nextAt <= now)
    && forall i, j :: 0 <= i < j < |due| ==> due[i].id != due[j].id
  }

  lemma {:induction false} DeliverAllFrames(cfg: Config, w: World, due: seq<Pending>, now: int,
                                            answers: string -> Answer, id: string)
    requires id in w.s.queue && forall i :: 0 <= i < |due| ==> due[i].id != id
    ensures var w' := DeliverAll(cfg, w, due, now, answers);
            id in w'.s.queue && w'.s.queue[id] == w.s.queue[id] && PushTimes(w', id) == PushTimes(w, id)
  {
    if due != [] {
      var n := |due| - 1;
      DeliverAllFrames(cfg, w, due[..n], now, answers, id);
      DeliverOneFrames(cfg, DeliverAll(cfg, w, due[..n], now, answers), due[n], now, answers(due[n].id), id);
    }
  }

  lemma {:induction false} DeliverAllKeeps(cfg: Config, w: World, due: seq<Pending>, now: int,
                                           answers: string -> Answer)
    requires Inv(cfg, w) && DueIn(w, due, now)
    ensures var w' := DeliverAll(cfg, w, due, now, answers);
            Inv(cfg, w') && Final(w, w') && w'.s.streams == w.s.streams
  {
    if due != [] {
      var n := |due| - 1;
      var w1 := DeliverAll(cfg, w, due[..n], now, answers);
      DeliverAllKeeps(cfg, w, due[..n], now, answers);
      DeliverAllFrames(cfg, w, due[..n], now, answers, due[n].id);
      DeliverOneKeeps(cfg, w1, due[n], now, answers(due[n].id));
      FinalTransitive(w, w1, DeliverAll(cfg, w, due, now, answers));
    }
  }

  lemma GoodIsKeyed(cfg: Config, w: World)
    requires Inv(cfg, w)
    ensures Keyed(w.s.queue)
  {
    forall id | id in w.s.queue
      ensures w.s.queue[id].id == id
    {
      assert GoodSet(cfg, w, id);
    }
  }

  lemma PassIsDue(w: World, now: int)
    requires Keyed(w.s.queue)
    ensures DueIn(w, Take(InOrder(w.s.queue, Due(now)), PASS_LIMIT), now)
  {
    var all := InOrder(w.s.queue, Due(now));
    var due := Take(all, PASS_LIMIT);
    forall i | 0 <= i < |due|
      ensures due[i].id in w.s.queue && w.s.queue[due[i].id] == due[i] && due[i].nextAt <= now
    {
      assert due[i] in all;
    }
    forall i, j | 0 <= i < j < |due|
      ensures due[i].id != due[j].id
    {
      assert all[i] != all[j];
    }
  }

  lemma DeliveryKeeps(cfg: Config, w: World, now: int, answers: string -> Answer)
    requires Inv(cfg, w)
    ensures Inv(cfg, Delivery(cfg, w, now, answers)) && Final(w, Delivery(cfg, w, now, answers))
  {
    GoodIsKeyed(cfg, w);
    PassIsDue(w, now);
    DeliverAllKeeps(cfg, w, Take(InOrder(w.s.queue, Due(now)), PASS_LIMIT), now, answers);
  }

  // ---------------------------------------------------------------- runs

  lemma CreateKeeps(cfg: Config, w: World, stream: Stream)
    requires Inv(cfg, w) && stream.id !in w.s.streams
    ensures var w' := w.(s := w.s.(streams := w.s.streams[stream.id := stream])); Inv(cfg, w') && Final(w, w')
  {
    var w' := w.(s := w.s.(streams := w.s.streams[stream.id := stream]));
    forall id | id in w'.s.queue
      ensures GoodSet(cfg, w', id)
    {
      GoodStays(cfg, w, w', id);
    }
  }

  lemma SubjectKeeps(cfg: Config, w: World, subjects: map<string, set<string>>)
    requires Inv(cfg, w)
    ensures var w' := w.(s := w.s.(subjects := subjects)); Inv(cfg, w') && Final(w, w')
  {
    var w' := w.(s := w.s.(subjects := subjects));
    forall id | id in w'.s.queue
      ensures GoodSet(cfg, w', id)
    {
      GoodStays(cfg, w, w', id);
    }
  }

  lemma NextKeeps(cfg: Config, w: World, e: Event)
    requires cfg.maxAttempts > 0 && Inv(cfg, w) && Possible(w, e)
    ensures Inv(cfg, Next(cfg, w, e)) && Final(w, Next(cfg, w, e))
  {
    match e
    case Create(stream) => CreateKeeps(cfg, w, stream);
    case Update(stream, receiver) =>
      if Owns(w.s, stream.id, receiver) { UpdateKeeps(cfg, w, stream); }
    case SetStatus(id, receiver, status) =>
      if Owns(w.s, id, receiver) { UpdateKeeps(cfg, w, w.s.streams[id].(status := status)); }
    case Delete(id, receiver) =>
      if Owns(w.s, id, receiver) { DeleteKeeps(cfg, w, id); }
    case Subject(id, receiver, key, add) => SubjectKeeps(cfg, w, WithSubject(w.s, id, key, add).subjects);
    case Queue(sets) => EnqueueAllKeeps(cfg, w, sets);
    case Deliver(now, answers) => DeliveryKeeps(cfg, w, now, answers);
    case Poll(id, receiver, acks) => LeaveKeeps(cfg, w, Acked(id, acks), AckedByPoll);
  }

  /** A run of possible events, with the world after each. */
  ghost predicate IsRun(cfg: Config, events: seq<Event>, worlds: seq<World>)
  {
    && |worlds| == |events| + 1 && worlds[0] == START
    && forall i :: 0 <= i < |events| ==>
         Possible(worlds[i], events[i]) && worlds[i + 1] == Next(cfg, worlds[i], events[i])
  }

  /** The invariant holds in every world of every run, and fates are final. */
  lemma {:induction false} RunKeeps(cfg: Config, events: seq<Event>, worlds: seq<World>, i: nat)
    requires cfg.maxAttempts > 0 && IsRun(cfg, events, worlds) && i < |worlds|
    ensures Inv(cfg, worlds[i])
    ensures i > 0 ==> Final(worlds[i - 1], worlds[i])
  {
    if i > 0 {
      RunKeeps(cfg, events, worlds, i - 1);
      NextKeeps(cfg, worlds[i - 1], events[i - 1]);
    }
  }

  /** In every reachable world: a queued SET belongs to an existing stream, its push flag is
      that stream's method, and it has been pushed fewer than MaxAttempts times. */
  lemma QueuedSets(cfg: Config, events: seq<Event>, worlds: seq<World>, i: nat, id: string)
    requires cfg.maxAttempts > 0 && IsRun(cfg, events, worlds) && i < |worlds| && id in worlds[i].s.queue
    ensures var p, streams := worlds[i].s.queue[id], worlds[i].s.streams;
            p.stream in streams && p.push == (streams[p.stream].via == Push) && p.attempts < cfg.maxAttempts
  {
    RunKeeps(cfg, events, worlds, i);
    assert GoodSet(cfg, worlds[i], id);
  }

  /** Conservation: every SET ever queued is in exactly one place, still queued or gone with
      one fate that never changes again, and none is ever dropped for want of its stream. */
  lemma Conservation(cfg: Config, events: seq<Event>, worlds: seq<World>, i: nat, id: string)
    requires cfg.maxAttempts > 0 && IsRun(cfg, events, worlds) && i < |worlds| && id in worlds[i].all
    ensures id in worlds[i].s.queue <==> id !in worlds[i].fates
    ensures id in worlds[i].fates ==> worlds[i].fates[id] != Orphaned
    ensures i + 1 < |worlds| ==> id in worlds[i + 1].all
    ensures i + 1 < |worlds| && id in worlds[i].fates ==>
              id in worlds[i + 1].fates && worlds[i + 1].fates[id] == worlds[i].fates[id]
  {
    RunKeeps(cfg, events, worlds, i);
    if i + 1 < |worlds| {
      RunKeeps(cfg, events, worlds, i + 1);
    }
  }

  /** Retries: over any run each SET is pushed at most MaxAttempts times, and two pushes in
      a row are at least the backoff of the earlier attempt apart. */
  lemma RetriesBounded(cfg: Config, events: seq<Event>, worlds: seq<World>, i: nat, id: string, k: nat)
    requires cfg.maxAttempts > 0 && IsRun(cfg, events, worlds) && i < |worlds|
    ensures |PushTimes(worlds[i], id)| <= cfg.maxAttempts
    ensures 0 < k < |PushTimes(worlds[i], id)| ==>
              PushTimes(worlds[i], id)[k - 1] + BackoffOf(cfg, k) <= PushTimes(worlds[i], id)[k]
  {
    RunKeeps(cfg, events, worlds, i);
  }
}
