/**
 What a delivery pass does with every SET, and why a SET left the queue, told by the answers
 to its pushes.
 */
module SignalsDelivery {
  import opened Orders
  import opened Backoff
  import opened SignalsStore
  import opened SignalsRuns
  import T = SignalsTransmitter

  /** The stream takes pushes now. */
  predicate Open(s: State, stream: string)
  {
    stream in s.streams && s.streams[stream].status == Enabled && s.streams[stream].via == Push
  }

  /** The SETs that are due for a push and older than p, by id among equals. */
  ghost function Ahead(w: World, now: int, p: Pending): set<Pending>
  {
    set q | q in w.s.queue.Values && q.push && q.nextAt <= now
            && (q.createdAt < p.createdAt || (q.createdAt == p.createdAt && LexLess(q.id, p.id)))
  }

  /** A push of p at time `now` that was answered: the SET stays queued exactly after a transient
      failure that leaves an attempt, and waits for the backoff; otherwise it was delivered or
      dropped. */
  ghost predicate Answered(cfg: Config, w: World, w': World, p: Pending, now: int, answer: Answer)
  {
    var times := PushTimes(w', p.id);
    && times == PushTimes(w, p.id) + [now]
    && (p.id in w'.s.queue <==> answer == Transient && |times| < cfg.maxAttempts)
    && (p.id in w'.s.queue ==>
          w'.s.queue[p.id] == p.(attempts := |times|, nextAt := now + DelayOf(cfg.base, cfg.cap, |times|)))
    && (p.id in w'.fates <==> p.id !in w'.s.queue)
    && (p.id in w'.fates ==> w'.fates[p.id] == if answer == Acknowledged then Delivered else Dropped)
  }

  /** Nothing about the SET changes. */
  ghost predicate Same(w: World, w': World, id: string)
  {
    && (id in w'.s.queue <==> id in w.s.queue) && (id in w.s.queue ==> w'.s.queue[id] == w.s.queue[id])
    && (id in w'.fates <==> id in w.fates) && (id in w.fates ==> w'.fates[id] == w.fates[id])
    && PushTimes(w', id) == PushTimes(w, id)
  }

  // ---------------------------------------------------------------- one SET of a pass

  lemma OthersSame(cfg: Config, w: World, p: Pending, now: int, answer: Answer, id: string)
    requires id != p.id
    ensures Same(w, DeliverOne(cfg, w, p, now, answer), id)
  {
  }

  lemma {:induction false} AllSame(cfg: Config, w: World, due: seq<Pending>, now: int, answers: string -> Answer,
                                   id: string)
    requires forall i :: 0 <= i < |due| ==> due[i].id != id
    ensures Same(w, DeliverAll(cfg, w, due, now, answers), id)
  {
    if due != [] {
      var n := |due| - 1;
      AllSame(cfg, w, due[..n], now, answers, id);
      OthersSame(cfg, DeliverAll(cfg, w, due[..n], now, answers), due[n], now, answers(due[n].id), id);
    }
  }

  lemma OnePush(cfg: Config, w: World, p: Pending, now: int, answer: Answer)
    requires p.id in w.s.queue && w.s.queue[p.id] == p && GoodSet(cfg, w, p.id) && p.id !in w.fates
    requires Open(w.s, p.stream)
    ensures Answered(cfg, w, DeliverOne(cfg, w, p, now, answer), p, now, answer)
  {
    assert PushTimes(Pushed(w, p, now), p.id) == PushTimes(w, p.id) + [now];
  }

  lemma AnsweredFrom(cfg: Config, w: World, v: World, v': World, p: Pending, now: int, answer: Answer)
    requires Same(w, v, p.id) && Answered(cfg, v, v', p, now, answer)
    ensures Answered(cfg, w, v', p, now, answer)
  {
  }

  lemma AnsweredStays(cfg: Config, w: World, v: World, v': World, p: Pending, now: int, answer: Answer)
    requires Answered(cfg, w, v, p, now, answer) && Same(v, v', p.id)
    ensures Answered(cfg, w, v', p, now, answer)
  {
  }

  lemma {:induction false} PassPushes(cfg: Config, w: World, due: seq<Pending>, now: int, answers: string -> Answer,
                                      k: nat)
    requires Inv(cfg, w) && DueIn(w, due, now) && k < |due| && Open(w.s, due[k].stream)
    ensures Answered(cfg, w, DeliverAll(cfg, w, due, now, answers), due[k], now, answers(due[k].id))
    decreases |due|
  {
    var n := |due| - 1;
    var v := DeliverAll(cfg, w, due[..n], now, answers);
    if k < n {
      PassPushes(cfg, w, due[..n], now, answers, k);
      OthersSame(cfg, v, due[n], now, answers(due[n].id), due[k].id);
      AnsweredStays(cfg, w, v, DeliverAll(cfg, w, due, now, answers), due[k], now, answers(due[k].id));
    } else {
      AllSame(cfg, w, due[..n], now, answers, due[n].id);
      DeliverAllKeeps(cfg, w, due[..n], now, answers);
      assert GoodSet(cfg, v, due[n].id);
      OnePush(cfg, v, due[n], now, answers(due[n].id));
      AnsweredFrom(cfg, w, v, DeliverAll(cfg, w, due, now, answers), due[n], now, answers(due[n].id));
    }
  }

  lemma {:induction false} PassSkips(cfg: Config, w: World, due: seq<Pending>, now: int, answers: string -> Answer,
                                     id: string)
    requires Inv(cfg, w) && DueIn(w, due, now)
    requires id in w.s.queue ==> !Open(w.s, w.s.queue[id].stream) || w.s.queue[id] !in due
    ensures Same(w, DeliverAll(cfg, w, due, now, answers), id)
    decreases |due|
  {
    if due != [] {
      var n := |due| - 1;
      var v := DeliverAll(cfg, w, due[..n], now, answers);
      PassSkips(cfg, w, due[..n], now, answers, id);
      if due[n].id != id {
        OthersSame(cfg, v, due[n], now, answers(due[n].id), id);
      } else {
        assert due[n] in due && GoodSet(cfg, w, id);
        DeliverAllKeeps(cfg, w, due[..n], now, answers);
        UnpushableSkipped(cfg, v, due[n], now, answers(id));
      }
    }
  }

  /** A pass leaves the SETs of paused, disabled or poll streams exactly as they were: no
      attempt is burned. */
  lemma PausedKept(cfg: Config, w: World, due: seq<Pending>, now: int, answers: string -> Answer, id: string)
    requires Inv(cfg, w) && DueIn(w, due, now) && id in w.s.queue && !Open(w.s, w.s.queue[id].stream)
    ensures var w' := DeliverAll(cfg, w, due, now, answers);
            id in w'.s.queue && w'.s.queue[id] == w.s.queue[id] && PushTimes(w', id) == PushTimes(w, id)
  {
    PassSkips(cfg, w, due, now, answers, id);
  }

  // ---------------------------------------------------------------- who is in the pass

  lemma {:induction false} DistinctSize<T(!new)>(q: seq<T>)
    requires Distinct(q)
    ensures |Elements(q)| == |q|
  {
    if q != [] {
      var n := |q| - 1;
      DistinctSize(q[..n]);
      assert q[n] !in q[..n];
      assert q == q[..n] + [q[n]];
      assert Elements(q) == Elements(q[..n]) + {q[n]};
    }
  }

  /** The position in a sorted listing is the number of smaller elements. */
  lemma PositionIs<T(!new)>(q: seq<T>, less: (T, T) -> bool, k: nat, smaller: set<T>)
    requires Increasing(q, less) && Linear(Elements(q), less) && Distinct(q) && k < |q|
    requires forall x :: x in smaller <==> x in q && less(x, q[k])
    ensures |smaller| == k
  {
    forall x | x in smaller
      ensures x in q[..k]
    {
      var i :| 0 <= i < |q| && q[i] == x;
      assert q[i] in Elements(q) && q[k] in Elements(q);
    }
    assert smaller == Elements(q[..k]);
    DistinctSize(q[..k]);
  }

  ghost function Pass(w: World, now: int): seq<Pending>
    requires Keyed(w.s.queue)
  {
    Take(InOrder(w.s.queue, Due(now)), PASS_LIMIT)
  }

  lemma DueSorted(w: World, now: int)
    requires Keyed(w.s.queue)
    ensures var all := InOrder(w.s.queue, Due(now));
            Increasing(all, Before) && Linear(Elements(all), Before) && Distinct(all)
  {
    var s, all := Select(w.s.queue, Due(now)), InOrder(w.s.queue, Due(now));
    BeforeIsLinear(w.s.queue, s);
    ArrangeIncreases(s, Before);
    assert Elements(all) == s;
  }

  /** A pass takes a queued SET exactly when it is due and fewer than 100 due ones are older. */
  lemma InPassIff(w: World, now: int, id: string)
    requires Keyed(w.s.queue) && id in w.s.queue
    ensures var p := w.s.queue[id];
            p in Pass(w, now) <==> p.push && p.nextAt <= now && |Ahead(w, now, p)| < 100
  {
    var p, all := w.s.queue[id], InOrder(w.s.queue, Due(now));
    DueSorted(w, now);
    if p in all {
      var k :| 0 <= k < |all| && all[k] == p;
      AheadIs(w, now, p);
      PositionIs(all, Before, k, Ahead(w, now, p));
      InPrefix(all, k, PASS_LIMIT);
    }
  }

  lemma AheadIs(w: World, now: int, p: Pending)
    requires Keyed(w.s.queue)
    ensures forall q :: q in Ahead(w, now, p) <==> q in InOrder(w.s.queue, Due(now)) && Before(q, p)
  {
    forall q
      ensures q in w.s.queue.Values <==> q.id in w.s.queue && w.s.queue[q.id] == q
    {
      if q in w.s.queue.Values {
        var id :| id in w.s.queue && w.s.queue[id] == q;
      }
    }
  }

  lemma InPrefix<T(!new)>(q: seq<T>, k: nat, limit: nat)
    requires Distinct(q) && k < |q| && limit > 0
    ensures q[k] in Take(q, limit) <==> k < limit
  {
    if limit < |q| && q[k] in q[..limit] {
      var j :| 0 <= j < limit && q[j] == q[k];
      assert j == k;
    }
    if k < limit < |q| {
      assert q[..limit][k] == q[k];
    }
  }

  // ---------------------------------------------------------------- a whole pass

  /** What becomes of a SET: it is pushed if and only if it is queued, its stream takes pushes,
      it is due, and fewer than 100 due SETs are older. Otherwise it stays exactly as it was. */
  ghost predicate Outcome(cfg: Config, w: World, w': World, now: int, answers: string -> Answer, id: string)
  {
    if && id in w.s.queue && Open(w.s, w.s.queue[id].stream) && w.s.queue[id].nextAt <= now
       && |Ahead(w, now, w.s.queue[id])| < 100
    then Answered(cfg, w, w', w.s.queue[id], now, answers(id))
    else Same(w, w', id)
  }

  /** A delivery pass from any reachable world. */
  lemma DeliverOutcome(cfg: Config, w: World, now: int, answers: string -> Answer, id: string)
    requires Inv(cfg, w)
    ensures Outcome(cfg, w, Next(cfg, w, Deliver(now, answers)), now, answers, id)
  {
    GoodIsKeyed(cfg, w);
    PassIsDue(w, now);
    var due := Pass(w, now);
    if id in w.s.queue {
      var p := w.s.queue[id];
      assert GoodSet(cfg, w, id);
      InPassIff(w, now, id);
      if Open(w.s, p.stream) && p in due {
        var k :| 0 <= k < |due| && due[k] == p;
        PassPushes(cfg, w, due, now, answers, k);
      } else {
        PassSkips(cfg, w, due, now, answers, id);
      }
    } else {
      PassSkips(cfg, w, due, now, answers, id);
    }
  }

  /** In every run, every delivery pass. */
  lemma PassOutcome(cfg: Config, events: seq<Event>, worlds: seq<World>, i: nat, id: string)
    requires cfg.maxAttempts > 0 && IsRun(cfg, events, worlds) && i < |events| && events[i].Deliver?
    ensures Outcome(cfg, worlds[i], worlds[i + 1], events[i].now, events[i].answers, id)
  {
    RunKeeps(cfg, events, worlds, i);
    DeliverOutcome(cfg, worlds[i], events[i].now, events[i].answers, id);
  }

  // ---------------------------------------------------------------- the counts of a pass

  /** The SETs that left the queue with a fate, and those that were put off. */
  ghost function LeftWith(w: World, w': World, fate: Fate): set<string>
  {
    set id | id in w.s.queue && id in w'.fates && w'.fates[id] == fate
  }

  ghost function PutOff(w: World, w': World): set<string>
  {
    set id | id in w.s.queue && id in w'.s.queue && w'.s.queue[id] != w.s.queue[id]
  }

  ghost predicate Counts(w: World, w': World, t: T.Tally)
  {
    && t.delivered == |LeftWith(w, w', Delivered)| && t.dropped == |LeftWith(w, w', Dropped)|
    && t.retried == |PutOff(w, w')|
  }

  /** A SET about which nothing changes stays in the sets that it is in. */
  ghost predicate Stays(w: World, v: World, v': World, id: string)
  {
    && (id in LeftWith(w, v', Delivered) <==> id in LeftWith(w, v, Delivered))
    && (id in LeftWith(w, v', Dropped) <==> id in LeftWith(w, v, Dropped))
    && (id in PutOff(w, v') <==> id in PutOff(w, v))
  }

  lemma SameStays(w: World, v: World, v': World, id: string)
    requires Same(v, v', id)
    ensures Stays(w, v, v', id)
  {
  }

  lemma Grows(a: set<string>, b: set<string>, id: string, joins: bool)
    requires id !in a && (id in b <==> joins) && forall q :: q != id ==> (q in b <==> q in a)
    ensures |b| == |a| + if joins then 1 else 0
  {
    assert b == if joins then a + {id} else a;
  }

  /** What one push adds to the counts. */
  function Counted(t: T.Tally, answer: Answer, queued: bool): T.Tally
  {
    if answer == Acknowledged then t.(delivered := t.delivered + 1)
    else if queued then t.(retried := t.retried + 1) else t.(dropped := t.dropped + 1)
  }

  /** A push of p changes exactly the set that p belongs to afterwards. */
  lemma PushCounts(cfg: Config, w: World, v: World, v': World, p: Pending, now: int, answer: Answer, t: T.Tally)
    requires Counts(w, v, t) && p.id in w.s.queue && w.s.queue[p.id] == p && p.id !in w.fates
    requires Same(w, v, p.id) && Answered(cfg, v, v', p, now, answer) && |PushTimes(v', p.id)| != p.attempts
    requires forall id :: id != p.id ==> Stays(w, v, v', id)
    ensures Counts(w, v', Counted(t, answer, p.id in v'.s.queue))
  {
    var id := p.id;
    forall q | q != id
      ensures q in LeftWith(w, v', Delivered) <==> q in LeftWith(w, v, Delivered)
      ensures q in LeftWith(w, v', Dropped) <==> q in LeftWith(w, v, Dropped)
      ensures q in PutOff(w, v') <==> q in PutOff(w, v)
    {
      assert Stays(w, v, v', q);
    }
    Grows(LeftWith(w, v, Delivered), LeftWith(w, v', Delivered), id, answer == Acknowledged);
    Grows(LeftWith(w, v, Dropped), LeftWith(w, v', Dropped), id, answer != Acknowledged && id !in v'.s.queue);
    Grows(PutOff(w, v), PutOff(w, v'), id, id in v'.s.queue);
  }

  lemma JudgeCounts(cfg: Config, v: World, p: Pending, now: int, answer: Answer, t: T.Tally)
    requires Open(v.s, p.stream) && p.id in v.s.queue && v.s.queue[p.id] == p
    ensures T.Count(Judge(cfg, v.s.streams, p, now, answer), t)
            == Counted(t, answer, p.id in DeliverOne(cfg, v, p, now, answer).s.queue)
  {
  }

  lemma {:induction false} PassCounts(cfg: Config, w: World, due: seq<Pending>, now: int, answers: string -> Answer)
    requires Inv(cfg, w) && DueIn(w, due, now)
    ensures Counts(w, DeliverAll(cfg, w, due, now, answers), T.Tallied(cfg, w.s.streams, due, now, answers))
    decreases |due|
  {
    if due == [] {
      assert LeftWith(w, w, Delivered) == {} && LeftWith(w, w, Dropped) == {} && PutOff(w, w) == {};
    } else {
      var n := |due| - 1;
      PassCounts(cfg, w, due[..n], now, answers);
      DeliverAllKeeps(cfg, w, due[..n], now, answers);
      AllSame(cfg, w, due[..n], now, answers, due[n].id);
      LastCounts(cfg, w, DeliverAll(cfg, w, due[..n], now, answers), due[n], now, answers(due[n].id),
                 T.Tallied(cfg, w.s.streams, due[..n], now, answers));
    }
  }

  lemma LastCounts(cfg: Config, w: World, v: World, p: Pending, now: int, answer: Answer, t: T.Tally)
    requires Inv(cfg, w) && Inv(cfg, v) && v.s.streams == w.s.streams && Counts(w, v, t)
    requires p.id in w.s.queue && w.s.queue[p.id] == p && Same(w, v, p.id)
    ensures Counts(w, DeliverOne(cfg, v, p, now, answer), T.Count(Judge(cfg, w.s.streams, p, now, answer), t))
  {
    var v' := DeliverOne(cfg, v, p, now, answer);
    assert GoodSet(cfg, v, p.id);
    if Open(v.s, p.stream) {
      forall id | id != p.id
        ensures Stays(w, v, v', id)
      {
        OthersSame(cfg, v, p, now, answer, id);
        SameStays(w, v, v', id);
      }
      OnePush(cfg, v, p, now, answer);
      PushCounts(cfg, w, v, v', p, now, answer, t);
      JudgeCounts(cfg, v, p, now, answer, t);
    } else {
      UnpushableSkipped(cfg, v, p, now, answer);
    }
  }

  /** The counts that a pass reports are the numbers of SETs it delivered, put off and dropped. */
  lemma TallyMeaning(cfg: Config, w: World, now: int, answers: string -> Answer)
    requires Inv(cfg, w)
    ensures Keyed(w.s.queue)
    ensures Counts(w, Next(cfg, w, Deliver(now, answers)), T.Tallied(cfg, w.s.streams, Pass(w, now), now, answers))
  {
    GoodIsKeyed(cfg, w);
    PassIsDue(w, now);
    PassCounts(cfg, w, Pass(w, now), now, answers);
  }

  // ---------------------------------------------------------------- why a SET left the queue

  /** The event is the reason why a queued SET left with its fate: it was pushed and answered,
      its owner acknowledged it, or the owner of its stream deleted the stream. */
  ghost predicate Reason(cfg: Config, w: World, e: Event, w': World, id: string, fate: Fate)
    requires id in w.s.queue
  {
    var p, times := w.s.queue[id], PushTimes(w', id);
    match fate
    case Delivered => e.Deliver? && times == PushTimes(w, id) + [e.now] && e.answers(id) == Acknowledged
    case Dropped =>
      && e.Deliver? && times == PushTimes(w, id) + [e.now]
      && (e.answers(id) == Permanent || (e.answers(id) == Transient && |times| == cfg.maxAttempts))
    case AckedByPoll =>
      && e.Poll? && e.id == p.stream && p.jti in e.acks
      && Owns(w.s, p.stream, e.receiver) && w.s.streams[p.stream].via == Method.Poll
    case RemovedWithStream => e.Delete? && e.id == p.stream && Owns(w.s, p.stream, e.receiver)
    case Orphaned => false
  }

  lemma FewPushes(cfg: Config, w: World, id: string)
    requires Inv(cfg, w)
    ensures |PushTimes(w, id)| <= cfg.maxAttempts
  {
    if id in w.pushes {
      assert Spaced(cfg, w.pushes[id]);
    }
  }

  lemma OutcomeReason(cfg: Config, w: World, w': World, now: int, answers: string -> Answer, id: string)
    requires Inv(cfg, w) && Inv(cfg, w') && Outcome(cfg, w, w', now, answers, id)
    ensures Explained(cfg, w, Deliver(now, answers), w', id)
  {
    FewPushes(cfg, w', id);
    if id in w.s.queue {
      assert GoodSet(cfg, w, id);
    }
  }

  lemma {:induction false} EnqueueSilent(w: World, ps: seq<Pending>)
    ensures EnqueueAll(w, ps).fates == w.fates && EnqueueAll(w, ps).pushes == w.pushes
  {
    if ps != [] {
      EnqueueSilent(w, ps[..|ps| - 1]);
    }
  }

  /** A SET that leaves has a reason; one that has left keeps its fate, and its pushes are final. */
  ghost predicate Explained(cfg: Config, w: World, e: Event, w': World, id: string)
  {
    && (id in w.fates ==> id in w'.fates && w'.fates[id] == w.fates[id] && PushTimes(w', id) == PushTimes(w, id))
    && (id in w'.fates && id !in w.fates ==> id in w.s.queue && Reason(cfg, w, e, w', id, w'.fates[id]))
  }

  lemma OtherReason(cfg: Config, w: World, e: Event, id: string)
    requires Inv(cfg, w) && !e.Deliver?
    ensures Explained(cfg, w, e, Next(cfg, w, e), id)
  {
    if e.Queue? {
      EnqueueSilent(w, e.sets);
    }
  }

  lemma StepReason(cfg: Config, w: World, e: Event, id: string)
    requires Inv(cfg, w) && Inv(cfg, Next(cfg, w, e))
    ensures Explained(cfg, w, e, Next(cfg, w, e), id)
  {
    if e.Deliver? {
      DeliverOutcome(cfg, w, e.now, e.answers, id);
      OutcomeReason(cfg, w, Next(cfg, w, e), e.now, e.answers, id);
    } else {
      OtherReason(cfg, w, e, id);
    }
  }

  /** Step j of the run is the reason for the fate that the SET has in world i. */
  ghost predicate LeftAt(cfg: Config, events: seq<Event>, worlds: seq<World>, i: int, id: string, j: int)
    requires |worlds| == |events| + 1 && 0 <= j < i < |worlds| && id in worlds[i].fates
  {
    && id in worlds[j].s.queue && PushTimes(worlds[i], id) == PushTimes(worlds[j + 1], id)
    && Reason(cfg, worlds[j], events[j], worlds[j + 1], id, worlds[i].fates[id])
  }

  /** Over any run, every SET that left the queue did so for one reason: a delivered SET was
      acknowledged at its last push; a dropped one was refused for good at its last push, or its
      last push was number MaxAttempts and failed as well. */
  lemma {:induction false} FateReason(cfg: Config, events: seq<Event>, worlds: seq<World>, i: nat, id: string)
    requires cfg.maxAttempts > 0 && IsRun(cfg, events, worlds) && i < |worlds| && id in worlds[i].fates
    ensures exists j :: 0 <= j < i && LeftAt(cfg, events, worlds, i, id, j)
  {
    if i > 0 {
      RunKeeps(cfg, events, worlds, i - 1);
      RunKeeps(cfg, events, worlds, i);
      StepReason(cfg, worlds[i - 1], events[i - 1], id);
      if id in worlds[i - 1].fates {
        FateReason(cfg, events, worlds, i - 1, id);
        var j :| 0 <= j < i - 1 && LeftAt(cfg, events, worlds, i - 1, id, j);
        assert LeftAt(cfg, events, worlds, i, id, j);
      } else {
        assert LeftAt(cfg, events, worlds, i, id, i - 1);
      }
    }
  }
}
