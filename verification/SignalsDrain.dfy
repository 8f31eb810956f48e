/**
 Draining a stream by polling, as part of a run of the transmitter: the receiver polls once
 without acknowledging anything, and then acknowledges each page with the next poll.
 */
module SignalsDrain {
  import opened SignalsStore
  import opened SignalsRuns
  import opened SignalsPoll

  // ---------------------------------------------------------------- repeated steps

  /** Each element follows from the one before by `next`. */
  ghost predicate Iterates<T>(ts: seq<T>, next: T -> T)
  {
    ts != [] && forall k :: 0 <= k < |ts| - 1 ==> AppliedAt(ts, next, k)
  }

  ghost predicate AppliedAt<T>(ts: seq<T>, next: T -> T, k: int)
    requires 0 <= k < |ts| - 1
  {
    ts[k + 1] == next(ts[k])
  }

  lemma IteratesTail<T>(ts: seq<T>, next: T -> T)
    requires Iterates(ts, next) && |ts| > 1
    ensures ts[1] == next(ts[0]) && Iterates(ts[1..], next)
  {
    assert AppliedAt(ts, next, 0);
    forall k | 0 <= k < |ts[1..]| - 1
      ensures AppliedAt(ts[1..], next, k)
    {
      assert AppliedAt(ts, next, k + 1);
    }
  }

  lemma {:induction false} StaysGood<T(!new)>(ts: seq<T>, next: T -> T, good: T -> bool, k: nat)
    requires Iterates(ts, next) && good(ts[0]) && k < |ts|
    requires forall t {:trigger next(t)} :: good(t) ==> good(next(t))
    ensures good(ts[k])
    decreases k
  {
    if k > 0 {
      StaysGood(ts, next, good, k - 1);
      assert AppliedAt(ts, next, k - 1);
    }
  }

  lemma {:induction false} PagesSeen(ss: seq<State>, page: State -> (seq<Pending>, bool), ack: State -> State)
    requires Iterates(ss, ack)
    ensures seq(|ss| - 1, k requires 0 <= k < |ss| - 1 => page(ss[k])) == Polls(ss[0], page, ack, |ss| - 1)
    decreases |ss|
  {
    if |ss| > 1 {
      IteratesTail(ss, ack);
      PagesSeen(ss[1..], page, ack);
    }
  }

  lemma {:induction false} ViewEmpties(ss: seq<State>, max: nat, view: State -> seq<Pending>, ack: State -> State,
                                       fine: State -> bool)
    requires max > 0 && Iterates(ss, ack) && Drops(ack, view, fine, max)
    requires fine(ss[0]) && |ss| - 1 == Rounds(|view(ss[0])|, max)
    ensures fine(ss[|ss| - 1]) && view(ss[|ss| - 1]) == []
    decreases |ss|
  {
    if |ss| > 1 {
      IteratesTail(ss, ack);
      ViewEmpties(ss[1..], max, view, ack, fine);
    }
  }

  /** No SET of the stream is queued. */
  ghost predicate Emptied(s: State, id: string)
  {
    forall q :: q in s.queue ==> s.queue[q].stream != id
  }

  lemma InView(s: State, id: string, q: string)
    requires Keyed(s.queue) && q in s.queue && s.queue[q].stream == id
    ensures s.queue[q] in ViewOf(id)(s)
  {
    assert s.queue[q] in Select(s.queue, OfStream(id));
  }

  lemma EmptyView(s: State, id: string)
    requires Keyed(s.queue) && ViewOf(id)(s) == []
    ensures Emptied(s, id)
  {
    forall q | q in s.queue
      ensures s.queue[q].stream != id
    {
      if s.queue[q].stream == id {
        InView(s, id, q);
      }
    }
  }

  // ---------------------------------------------------------------- one poll

  /** The receiver's stream takes polls, and is enabled. */
  predicate Serves(s: State, id: string, receiver: string)
  {
    Owns(s, id, receiver) && s.streams[id].via == Method.Poll && s.streams[id].status == Enabled
  }

  /** What a poll returns in world w. */
  ghost function ReplyIn(w: World, id: string, max: nat): (seq<Pending>, bool)
  {
    if Keyed(w.s.queue) && id in w.s.streams then Reply(w.s, id, max) else ([], false)
  }

  /** A stream that is paused or disabled keeps what it has to itself. */
  lemma PausedGivesNothing(s: State, id: string, max: nat)
    requires Keyed(s.queue) && id in s.streams && s.streams[id].status != Enabled
    ensures Reply(s, id, max) == ([], false)
  {
  }

  /** What the polls that lead to these worlds return. */
  ghost function Replies(ws: seq<World>, id: string, max: nat): seq<(seq<Pending>, bool)>
  {
    seq(|ws|, k requires 0 <= k < |ws| => ReplyIn(ws[k], id, max))
  }

  /** The world after a poll that acknowledges what a poll returned in world w. */
  ghost function Acknowledge(cfg: Config, id: string, receiver: string, max: nat): World -> World
  {
    (w: World) => Next(cfg, w, Event.Poll(id, receiver, Jtis(ReplyIn(w, id, max).0)))
  }

  ghost function Served(cfg: Config, id: string, receiver: string): World -> bool
  {
    (w: World) => Inv(cfg, w) && Serves(w.s, id, receiver)
  }

  /** A poll leaves a SET queued as it was, or takes it off its stream's queue for good. */
  ghost predicate Stepped(w: World, w': World, id: string, q: string)
    requires q in w.s.queue
  {
    if q in w'.s.queue then w'.s.queue[q] == w.s.queue[q]
    else w.s.queue[q].stream == id && q in w'.fates && w'.fates[q] == AckedByPoll
  }

  ghost predicate PollStep(w: World, w': World, id: string)
  {
    Final(w, w') && forall q :: q in w.s.queue ==> Stepped(w, w', id, q)
  }

  lemma ReplyIsPage(cfg: Config, w: World, id: string, receiver: string, max: nat)
    requires Inv(cfg, w) && Serves(w.s, id, receiver) && max > 0
    ensures Fine(id)(w.s) && ReplyIn(w, id, max) == PageOf(id, max)(w.s)
  {
    GoodIsKeyed(cfg, w);
  }

  lemma AckedStep(w: World, id: string, acks: seq<string>)
    requires Final(w, Leave(w, Acked(id, acks), AckedByPoll))
    ensures PollStep(w, Leave(w, Acked(id, acks), AckedByPoll), id)
  {
  }

  lemma PollIsLeave(cfg: Config, w: World, id: string, receiver: string, acks: seq<string>)
    requires Serves(w.s, id, receiver)
    ensures Next(cfg, w, Event.Poll(id, receiver, acks)) == Leave(w, Acked(id, acks), AckedByPoll)
    ensures Leave(w, Acked(id, acks), AckedByPoll).s == AfterAck(w.s, id, acks)
    ensures Serves(AfterAck(w.s, id, acks), id, receiver)
  {
  }

  lemma AcknowledgeStep(cfg: Config, id: string, receiver: string, max: nat, w: World)
    requires max > 0 && Served(cfg, id, receiver)(w)
    ensures var w' := Acknowledge(cfg, id, receiver, max)(w);
            Served(cfg, id, receiver)(w') && PollStep(w, w', id) && w'.s == AckOf(id, max)(w.s)
  {
    ReplyIsPage(cfg, w, id, receiver, max);
    var acks := Jtis(PageOf(id, max)(w.s).0);
    var w' := Leave(w, Acked(id, acks), AckedByPoll);
    assert Acknowledge(cfg, id, receiver, max)(w) == w' by {
      PollIsLeave(cfg, w, id, receiver, acks);
    }
    assert PollStep(w, w', id) && Inv(cfg, w') by {
      LeaveKeeps(cfg, w, Acked(id, acks), AckedByPoll);
      AckedStep(w, id, acks);
    }
    assert w'.s == AfterAck(w.s, id, acks) && Serves(w'.s, id, receiver) by {
      PollIsLeave(cfg, w, id, receiver, acks);
    }
  }

  // ---------------------------------------------------------------- many polls

  /** A SET of the stream was acknowledged, and one of another stream is as it was. */
  ghost predicate Settled(w: World, w': World, id: string, q: string)
    requires q in w.s.queue
  {
    if w.s.queue[q].stream == id then q in w'.fates && w'.fates[q] == AckedByPoll
    else q in w'.s.queue && w'.s.queue[q] == w.s.queue[q]
  }

  ghost predicate Stepwise(ws: seq<World>, next: World -> World, id: string)
  {
    Iterates(ws, next) && forall k :: 0 <= k < |ws| - 1 ==> PollStep(ws[k], next(ws[k]), id)
  }

  lemma StepwiseTail(ws: seq<World>, next: World -> World, id: string)
    requires Stepwise(ws, next, id) && |ws| > 1
    ensures PollStep(ws[0], ws[1], id) && Stepwise(ws[1..], next, id)
  {
    IteratesTail(ws, next);
    assert forall k :: 0 <= k < |ws[1..]| ==> ws[1..][k] == ws[k + 1];
  }

  lemma {:induction false} FateStays(ws: seq<World>, next: World -> World, id: string, q: string)
    requires Stepwise(ws, next, id) && q in ws[0].fates
    ensures q in ws[|ws| - 1].fates && ws[|ws| - 1].fates[q] == ws[0].fates[q]
    decreases |ws|
  {
    if |ws| > 1 {
      StepwiseTail(ws, next, id);
      FateStays(ws[1..], next, id, q);
    }
  }

  lemma {:induction false} Settles(ws: seq<World>, next: World -> World, id: string, q: string)
    requires Stepwise(ws, next, id) && q in ws[0].s.queue && Emptied(ws[|ws| - 1].s, id)
    ensures Settled(ws[0], ws[|ws| - 1], id, q)
    decreases |ws|
  {
    if |ws| > 1 {
      StepwiseTail(ws, next, id);
      assert Stepped(ws[0], ws[1], id, q);
      if q in ws[1].s.queue {
        Settles(ws[1..], next, id, q);
      } else {
        FateStays(ws[1..], next, id, q);
      }
    }
  }

  function Stores(ws: seq<World>): (ss: seq<State>)
    ensures |ss| == |ws| && forall k :: 0 <= k < |ws| ==> ss[k] == ws[k].s
  {
    seq(|ws|, k requires 0 <= k < |ws| => ws[k].s)
  }

  /** What one acknowledging poll does to a good world, told by the store alone. */
  ghost predicate Follows(next: World -> World, good: World -> bool, page: State -> (seq<Pending>, bool),
                          ack: State -> State, fine: State -> bool, id: string, max: nat)
  {
    forall w {:trigger next(w)} :: good(w) ==>
      && good(next(w)) && PollStep(w, next(w), id) && next(w).s == ack(w.s)
      && fine(w.s) && ReplyIn(w, id, max) == page(w.s)
  }

  lemma StoresFollow(ws: seq<World>, next: World -> World, good: World -> bool, page: State -> (seq<Pending>, bool),
                     ack: State -> State, fine: State -> bool, id: string, max: nat)
    requires Iterates(ws, next) && good(ws[0]) && Follows(next, good, page, ack, fine, id, max)
    ensures Stepwise(ws, next, id) && Iterates(Stores(ws), ack) && fine(ws[0].s)
    ensures forall k :: 0 <= k < |ws| ==> ReplyIn(ws[k], id, max) == page(ws[k].s)
  {
    forall k | 0 <= k < |ws|
      ensures PollStep(ws[k], next(ws[k]), id) && next(ws[k]).s == ack(ws[k].s)
      ensures fine(ws[k].s) && ReplyIn(ws[k], id, max) == page(ws[k].s)
    {
      StaysGood(ws, next, good, k);
    }
    var ss := Stores(ws);
    forall k | 0 <= k < |ws| - 1
      ensures AppliedAt(ss, ack, k)
    {
      assert AppliedAt(ws, next, k);
    }
  }

  lemma AcknowledgeFollows(cfg: Config, id: string, receiver: string, max: nat)
    requires max > 0
    ensures Follows(Acknowledge(cfg, id, receiver, max), Served(cfg, id, receiver), PageOf(id, max), AckOf(id, max),
                    Fine(id), id, max)
  {
    var next, good := Acknowledge(cfg, id, receiver, max), Served(cfg, id, receiver);
    var page, ack, fine := PageOf(id, max), AckOf(id, max), Fine(id);
    forall w | good(w)
      ensures && good(next(w)) && PollStep(w, next(w), id) && next(w).s == ack(w.s)
              && fine(w.s) && ReplyIn(w, id, max) == page(w.s)
    {
      AcknowledgeStep(cfg, id, receiver, max, w);
      ReplyIsPage(cfg, w, id, receiver, max);
    }
  }

  lemma RepliesSeen(ws: seq<World>, page: State -> (seq<Pending>, bool), ack: State -> State, id: string, max: nat,
                    n: nat)
    requires |ws| == n + 1 && Iterates(Stores(ws), ack)
    requires forall k :: 0 <= k < |ws| ==> ReplyIn(ws[k], id, max) == page(ws[k].s)
    ensures Replies(ws[..n], id, max) == Polls(ws[0].s, page, ack, n)
  {
    var ss := Stores(ws);
    PagesSeen(ss, page, ack);
    assert Replies(ws[..n], id, max) == seq(n, k requires 0 <= k < n => page(ss[k]));
  }

  lemma WorldsDrain(ws: seq<World>, next: World -> World, good: World -> bool, page: State -> (seq<Pending>, bool),
                    ack: State -> State, view: State -> seq<Pending>, fine: State -> bool, id: string, max: nat, n: nat)
    requires max > 0 && Iterates(ws, next) && good(ws[0])
    requires Follows(next, good, page, ack, fine, id, max) && Drops(ack, view, fine, max)
    requires |ws| == n + 1 && n == Rounds(|view(ws[0].s)|, max)
    ensures Replies(ws[..n], id, max) == Polls(ws[0].s, page, ack, n)
    ensures fine(ws[n].s) && view(ws[n].s) == [] && Stepwise(ws, next, id)
  {
    StoresFollow(ws, next, good, page, ack, fine, id, max);
    RepliesSeen(ws, page, ack, id, max, n);
    ViewEmpties(Stores(ws), max, view, ack, fine);
  }

  /** All SETs of the stream, and no SET of another stream, have left the queue as acknowledged. */
  ghost predicate Cleared(before: World, after: World, id: string)
  {
    Emptied(after.s, id) && forall q :: q in before.s.queue ==> Settled(before, after, id, q)
  }

  lemma AllSettle(ws: seq<World>, next: World -> World, id: string)
    requires Stepwise(ws, next, id) && Emptied(ws[|ws| - 1].s, id)
    ensures Cleared(ws[0], ws[|ws| - 1], id)
  {
    forall q | q in ws[0].s.queue
      ensures Settled(ws[0], ws[|ws| - 1], id, q)
    {
      Settles(ws, next, id, q);
    }
  }

  /** The pages hold every SET of the stream exactly once and in order; there are ceil(n / max)
      of them, and all but the last are full and say that there are more. */
  ghost predicate Complete(s: State, pages: seq<(seq<Pending>, bool)>, id: string, max: nat)
    requires max > 0
  {
    var all := ViewOf(id)(s);
    |pages| == (|all| + max - 1) / max && Joined(pages) == all && WellPaged(pages, max)
  }

  lemma PagesComplete(s: State, id: string, max: nat, n: nat)
    requires max > 0 && Fine(id)(s) && n == Rounds(|ViewOf(id)(s)|, max)
    ensures Complete(s, DrainPages(s, id, max, n), id, max)
  {
    DrainComplete(s, id, max);
  }

  lemma AcknowledgingDrains(cfg: Config, ws: seq<World>, id: string, receiver: string, max: nat, n: nat)
    requires max > 0 && Iterates(ws, Acknowledge(cfg, id, receiver, max)) && Served(cfg, id, receiver)(ws[0])
    requires |ws| == n + 1 && n == Rounds(|ViewOf(id)(ws[0].s)|, max)
    ensures Replies(ws[..n], id, max) == DrainPages(ws[0].s, id, max, n) && Cleared(ws[0], ws[n], id)
  {
    var next := Acknowledge(cfg, id, receiver, max);
    AcknowledgeFollows(cfg, id, receiver, max);
    AcksDrop(id, max);
    WorldsDrain(ws, next, Served(cfg, id, receiver), PageOf(id, max), AckOf(id, max), ViewOf(id), Fine(id), id, max, n);
    EmptyView(ws[n].s, id);
    AllSettle(ws, next, id);
  }

  // ---------------------------------------------------------------- the theorem

  /** The events from position i on: n + 1 polls, the first without acknowledgements, each
      other one acknowledging what the poll before it returned. */
  ghost predicate PollsFrom(events: seq<Event>, worlds: seq<World>, i: nat, n: nat, id: string, receiver: string,
                            max: nat)
    requires |worlds| == |events| + 1
  {
    && i + n < |events| && events[i] == Event.Poll(id, receiver, [])
    && forall j :: i < j <= i + n ==> events[j] == Event.Poll(id, receiver, Jtis(ReplyIn(worlds[j], id, max).0))
  }

  lemma NothingAcked(cfg: Config, w: World, id: string, receiver: string)
    ensures Next(cfg, w, Event.Poll(id, receiver, [])) == w
  {
    assert Leave(w, Acked(id, []), AckedByPoll).s.queue == w.s.queue;
    assert Leave(w, Acked(id, []), AckedByPoll).fates == w.fates;
  }

  /** The worlds that the polls lead to. */
  lemma PollsIterate(cfg: Config, events: seq<Event>, worlds: seq<World>, i: nat, n: nat, id: string, receiver: string,
                     max: nat) returns (ws: seq<World>)
    requires IsRun(cfg, events, worlds) && PollsFrom(events, worlds, i, n, id, receiver, max)
    ensures |ws| == n + 1 && ws[0] == worlds[i] && ws[n] == worlds[i + n + 1] && ws[..n] == worlds[i + 1..i + n + 1]
    ensures Iterates(ws, Acknowledge(cfg, id, receiver, max))
  {
    NothingAcked(cfg, worlds[i], id, receiver);
    ws := worlds[i + 1..i + n + 2];
    forall k | 0 <= k < |ws| - 1
      ensures AppliedAt(ws, Acknowledge(cfg, id, receiver, max), k)
    {
      var j := i + 1 + k;
      assert worlds[j + 1] == Next(cfg, worlds[j], events[j]);
    }
  }

  /** From any reachable world, the owner of an enabled poll stream who acknowledges each page
      with the next poll gets all its SETs, and in the end they have left the queue. */
  lemma DrainRun(cfg: Config, events: seq<Event>, worlds: seq<World>, i: nat, n: nat, id: string, receiver: string,
                 max: nat)
    requires cfg.maxAttempts > 0 && max > 0 && IsRun(cfg, events, worlds)
    requires PollsFrom(events, worlds, i, n, id, receiver, max) && Serves(worlds[i].s, id, receiver)
    requires n == Rounds(|ViewOf(id)(worlds[i].s)|, max)
    ensures Complete(worlds[i].s, Replies(worlds[i + 1..i + n + 1], id, max), id, max)
    ensures Cleared(worlds[i], worlds[i + n + 1], id)
  {
    RunKeeps(cfg, events, worlds, i);
    var ws := PollsIterate(cfg, events, worlds, i, n, id, receiver, max);
    AcknowledgingDrains(cfg, ws, id, receiver, max, n);
    ReplyIsPage(cfg, ws[0], id, receiver, max);
    PagesComplete(ws[0].s, id, max, n);
  }
}
