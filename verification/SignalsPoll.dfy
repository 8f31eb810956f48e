/**
 Polling (section 2 of RFC 8936): a poll acknowledges what the receiver has processed and
 returns the oldest SETs of the stream. Waiting for new SETs is left out.
 */
module SignalsPoll {
  import opened Arithmetic
  import opened Orders
  import opened SignalsStore

  /** At most `max` SETs of a stream, oldest first, and whether there are more. */
  ghost function Page(s: State, id: string, max: nat): (seq<Pending>, bool)
    requires Keyed(s.queue)
  {
    var items := Take(InOrder(s.queue, OfStream(id)), max + 1);
    if |items| > max then (items[..max], true) else (items, false)
  }

  /** What a poll returns: nothing while the stream is paused or disabled. */
  ghost function Reply(s: State, id: string, max: nat): (seq<Pending>, bool)
    requires Keyed(s.queue) && id in s.streams
  {
    if s.streams[id].status == Enabled && max > 0 then Page(s, id, max) else ([], false)
  }

  function Jtis(page: seq<Pending>): (r: seq<string>)
    ensures |r| == |page| && forall i :: 0 <= i < |page| ==> r[i] == page[i].jti
  {
    seq(|page|, i requires 0 <= i < |page| => page[i].jti)
  }

  /** Token ids are random, so two SETs of a stream never share one. */
  ghost predicate DistinctJtis(queue: Queue, id: string)
  {
    forall a, b :: a in queue && b in queue && queue[a].stream == queue[b].stream == id && queue[a].jti == queue[b].jti
                   ==> a == b
  }

  // ---------------------------------------------------------------- acknowledging a page

  lemma {:induction false} DropIncreasing<T(!new)>(q: seq<T>, k: nat, less: (T, T) -> bool)
    requires Increasing(q, less) && k <= |q|
    ensures Increasing(q[k..], less)
  {
    assert forall i, j :: 0 <= i < j < |q[k..]| ==> q[k..][i] == q[k + i] && q[k..][j] == q[k + j];
  }

  lemma SplitMember<T(!new)>(q: seq<T>, k: nat, x: T)
    requires Distinct(q) && k <= |q|
    ensures x in q[k..] <==> x in q && x !in q[..k]
  {
    assert q == q[..k] + q[k..];
    if x in q[k..] {
      var i :| k <= i < |q| && q[i] == x;
      assert forall j :: 0 <= j < k ==> q[j] != q[i];
    }
  }

  /** Removing the first k elements of a sorted listing leaves the rest of the listing. */
  lemma ArrangeDrop<T(!new)>(s: set<T>, less: (T, T) -> bool, k: nat, rest: set<T>)
    requires Linear(s, less) && Linear(rest, less) && k <= |s|
    requires forall x :: x in rest <==> x in s && x !in Arrange(s, less)[..k]
    ensures Arrange(rest, less) == Arrange(s, less)[k..]
  {
    var q := Arrange(s, less);
    ArrangeIncreases(s, less);
    DropIncreasing(q, k, less);
    assert Distinct(q);
    forall x
      ensures x in q[k..] <==> x in rest
    {
      SplitMember(q, k, x);
    }
    assert Elements(q[k..]) == rest;
    ArrangeUnique(q[k..], less);
  }

  lemma AckedExactly(s: State, id: string, page: seq<Pending>, p: Pending)
    requires Keyed(s.queue) && DistinctJtis(s.queue, id)
    requires forall x :: x in page ==> x.id in s.queue && s.queue[x.id] == x && x.stream == id
    requires p.id in s.queue && s.queue[p.id] == p && p.stream == id
    ensures Acked(id, Jtis(page))(p) <==> p in page
  {
    if p.jti in Jtis(page) {
      var i :| 0 <= i < |page| && page[i].jti == p.jti;
      assert page[i] in page;
      assert page[i].id == p.id;
    }
    if p in page {
      var i :| 0 <= i < |page| && page[i] == p;
      assert Jtis(page)[i] == p.jti;
    }
  }

  /** Acknowledging the first k SETs leaves the others of the stream, in the same order. */
  lemma AckDropsPage(s: State, id: string, k: nat)
    requires Keyed(s.queue) && DistinctJtis(s.queue, id) && k <= |InOrder(s.queue, OfStream(id))|
    ensures var all := InOrder(s.queue, OfStream(id));
            var s' := AfterAck(s, id, Jtis(all[..k]));
            Keyed(s'.queue) && DistinctJtis(s'.queue, id) && InOrder(s'.queue, OfStream(id)) == all[k..]
  {
    var want := OfStream(id);
    var all := InOrder(s.queue, want);
    var page := all[..k];
    var s' := AfterAck(s, id, Jtis(page));
    assert Keyed(s'.queue);
    var sel, rest := Select(s.queue, want), Select(s'.queue, want);
    forall x | x in page
      ensures x.id in s.queue && s.queue[x.id] == x && x.stream == id
    {
      assert x in all;
    }
    forall p
      ensures p in rest <==> p in sel && p !in page
    {
      if p in sel {
        AckedExactly(s, id, page, p);
      }
      if p in rest {
        assert p in sel;
        AckedExactly(s, id, page, p);
      }
    }
    BeforeIsLinear(s.queue, sel);
    BeforeIsLinear(s.queue, rest);
    ArrangeDrop(sel, Before, k, rest);
  }

  // ---------------------------------------------------------------- draining a stream

  function Min(a: nat, b: nat): nat { if a < b then a else b }

  /** A page is the front of the stream's queue; moreAvailable says whether it is not all. */
  lemma PageMeaning(s: State, id: string, max: nat)
    requires Keyed(s.queue)
    ensures var all := InOrder(s.queue, OfStream(id));
            Page(s, id, max) == (all[..Min(max, |all|)], |all| > max)
  {
    var all := InOrder(s.queue, OfStream(id));
    assert all[..|all|] == all;
    if |all| > max {
      assert all[..max + 1][..max] == all[..max];
    }
  }

  lemma AckDropsFront(s: State, id: string, max: nat)
    requires Keyed(s.queue) && DistinctJtis(s.queue, id)
    ensures var all := InOrder(s.queue, OfStream(id));
            var s' := AfterAck(s, id, Jtis(Page(s, id, max).0));
            && Keyed(s'.queue) && DistinctJtis(s'.queue, id)
            && InOrder(s'.queue, OfStream(id)) == all[Min(max, |all|)..]
  {
    PageMeaning(s, id, max);
    AckDropsPage(s, id, Min(max, |InOrder(s.queue, OfStream(id))|));
  }

  /** The stream's queue in order, one poll's page, and the store once that page is
      acknowledged, as functions of the store. */
  ghost function ViewOf(id: string): State -> seq<Pending>
  {
    (s: State) => if Keyed(s.queue) then InOrder(s.queue, OfStream(id)) else []
  }

  ghost function PageOf(id: string, max: nat): State -> (seq<Pending>, bool)
  {
    (s: State) => if Keyed(s.queue) then Page(s, id, max) else ([], false)
  }

  ghost function AckOf(id: string, max: nat): State -> State
  {
    (s: State) => AfterAck(s, id, Jtis(PageOf(id, max)(s).0))
  }

  ghost function Fine(id: string): State -> bool { (s: State) => Keyed(s.queue) && DistinctJtis(s.queue, id) }

  /** The pages of n polls, each acknowledged before the next. */
  ghost function Polls(s: State, page: State -> (seq<Pending>, bool), ack: State -> State, n: nat)
    : seq<(seq<Pending>, bool)>
    decreases n
  {
    if n == 0 then [] else [page(s)] + Polls(ack(s), page, ack, n - 1)
  }

  ghost function DrainPages(s: State, id: string, max: nat, n: nat): seq<(seq<Pending>, bool)>
  {
    Polls(s, PageOf(id, max), AckOf(id, max), n)
  }

  ghost function Joined(pages: seq<(seq<Pending>, bool)>): seq<Pending>
  {
    if pages == [] then [] else pages[0].0 + Joined(pages[1..])
  }

  /** The number of polls it takes to see n SETs. */
  function Rounds(n: nat, max: nat): nat
    requires max > 0
  {
    if n == 0 then 0 else 1 + Rounds(n - Min(max, n), max)
  }

  lemma {:induction false} RoundsIsCeiling(n: nat, max: nat)
    requires max > 0
    ensures Rounds(n, max) == (n + max - 1) / max
  {
    if n == 0 {
      DivisionIs(max - 1, max, 0, max - 1);
    } else if n <= max {
      DivisionIs(n + max - 1, max, 1, n - 1);
    } else {
      RoundsIsCeiling(n - max, max);
      var x := n - 1;
      assert x + max == max * (x / max + 1) + x % max;
      DivisionIs(x + max, max, x / max + 1, x % max);
    }
  }

  /** What the pages of a list of length n look like: all but the last are full and say that
      there are more. */
  ghost predicate WellPaged(pages: seq<(seq<Pending>, bool)>, max: nat)
  {
    forall i :: 0 <= i < |pages| ==>
      (pages[i].1 <==> i < |pages| - 1) && 0 < |pages[i].0| <= max && (pages[i].1 ==> |pages[i].0| == max)
  }

  lemma WellPagedCons(first: (seq<Pending>, bool), rest: seq<(seq<Pending>, bool)>, max: nat)
    requires WellPaged(rest, max) && 0 < |first.0| <= max && (first.1 <==> rest != []) && (first.1 ==> |first.0| == max)
    ensures WellPaged([first] + rest, max)
  {
    var pages := [first] + rest;
    assert forall i :: 0 < i < |pages| ==> pages[i] == rest[i - 1];
  }

  lemma JoinedCons(first: (seq<Pending>, bool), rest: seq<(seq<Pending>, bool)>)
    ensures Joined([first] + rest) == first.0 + Joined(rest)
  {
    assert ([first] + rest)[1..] == rest;
  }

  /** A list cut into pages. */
  function Chunks(all: seq<Pending>, max: nat): seq<(seq<Pending>, bool)>
    requires max > 0
    decreases |all|
  {
    if all == [] then []
    else [(all[..Min(max, |all|)], |all| > max)] + Chunks(all[Min(max, |all|)..], max)
  }

  lemma {:induction false} ChunksComplete(all: seq<Pending>, max: nat)
    requires max > 0
    ensures Joined(Chunks(all, max)) == all
    ensures |Chunks(all, max)| == Rounds(|all|, max)
    ensures WellPaged(Chunks(all, max), max)
    decreases |all|
  {
    if all != [] {
      var k := Min(max, |all|);
      ChunksComplete(all[k..], max);
      var first, rest := (all[..k], |all| > max), Chunks(all[k..], max);
      WellPagedCons(first, rest, max);
      JoinedCons(first, rest);
      assert all == all[..k] + all[k..];
    }
  }

  /** A page is the front of the view. */
  ghost predicate Cuts(page: State -> (seq<Pending>, bool), view: State -> seq<Pending>, fine: State -> bool, max: nat)
  {
    forall t {:trigger page(t)} :: fine(t) ==> page(t) == (view(t)[..Min(max, |view(t)|)], |view(t)| > max)
  }

  /** One step drops the first `max` elements of the view. */
  ghost predicate Drops(ack: State -> State, view: State -> seq<Pending>, fine: State -> bool, max: nat)
  {
    forall t {:trigger ack(t)} :: fine(t) ==> fine(ack(t)) && view(ack(t)) == view(t)[Min(max, |view(t)|)..]
  }

  lemma {:induction false} PollsAreChunks(s: State, max: nat, view: State -> seq<Pending>,
                                          page: State -> (seq<Pending>, bool), ack: State -> State, fine: State -> bool)
    requires max > 0 && fine(s)
    requires Cuts(page, view, fine, max) && Drops(ack, view, fine, max)
    ensures Polls(s, page, ack, Rounds(|view(s)|, max)) == Chunks(view(s), max)
    decreases |view(s)|
  {
    if view(s) != [] {
      PollsAreChunks(ack(s), max, view, page, ack, fine);
    }
  }

  lemma FineSteps(id: string, max: nat, t: State)
    requires Fine(id)(t)
    ensures var all := ViewOf(id)(t);
            && PageOf(id, max)(t) == (all[..Min(max, |all|)], |all| > max)
            && Fine(id)(AckOf(id, max)(t)) && ViewOf(id)(AckOf(id, max)(t)) == all[Min(max, |all|)..]
  {
    PageMeaning(t, id, max);
    AckDropsFront(t, id, max);
  }

  lemma PagesCut(id: string, max: nat)
    ensures Cuts(PageOf(id, max), ViewOf(id), Fine(id), max)
  {
    var view, page, fine := ViewOf(id), PageOf(id, max), Fine(id);
    forall t | fine(t)
      ensures page(t) == (view(t)[..Min(max, |view(t)|)], |view(t)| > max)
    {
      FineSteps(id, max, t);
    }
  }

  lemma AcksDrop(id: string, max: nat)
    ensures Drops(AckOf(id, max), ViewOf(id), Fine(id), max)
  {
    var view, ack, fine := ViewOf(id), AckOf(id, max), Fine(id);
    forall t | fine(t)
      ensures fine(ack(t)) && view(ack(t)) == view(t)[Min(max, |view(t)|)..]
    {
      FineSteps(id, max, t);
    }
  }

  lemma DrainIsChunks(s: State, id: string, max: nat)
    requires Fine(id)(s) && max > 0
    ensures DrainPages(s, id, max, Rounds(|ViewOf(id)(s)|, max)) == Chunks(ViewOf(id)(s), max)
  {
    PagesCut(id, max);
    AcksDrop(id, max);
    PollsAreChunks(s, max, ViewOf(id), PageOf(id, max), AckOf(id, max), Fine(id));
  }

  /** A receiver that acknowledges each page before it polls again sees every queued SET of
      the stream exactly once and in order, in ceil(n / max) polls; every page but the last
      is full, and moreAvailable is set exactly on those. */
  lemma DrainComplete(s: State, id: string, max: nat)
    requires Keyed(s.queue) && DistinctJtis(s.queue, id) && max > 0
    ensures var all := ViewOf(id)(s);
            var polls := Rounds(|all|, max);
            && polls == (|all| + max - 1) / max
            && Joined(DrainPages(s, id, max, polls)) == all
            && |DrainPages(s, id, max, polls)| == polls
            && WellPaged(DrainPages(s, id, max, polls), max)
  {
    var all := ViewOf(id)(s);
    RoundsIsCeiling(|all|, max);
    DrainIsChunks(s, id, max);
    ChunksComplete(all, max);
  }
}
