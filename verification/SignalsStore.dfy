/**
 The store behind Shared Signals: streams, their subjects, and the queue of signed tokens
 (SETs) waiting for delivery or acknowledgement. Maps are walked in arbitrary order.
 */
module SignalsStore {
  import opened Orders

  datatype Status = Enabled | Paused | Disabled

  datatype Method = Push | Poll

  datatype Stream = Stream(id: string, receiver: string, via: Method, status: Status, delivered: seq<string>)

  datatype Pending = Pending(id: string, stream: string, jti: string, token: string, push: bool,
                             attempts: nat, nextAt: int, createdAt: int)

  type Queue = map<string, Pending>

  datatype State = State(streams: map<string, Stream>, subjects: map<string, set<string>>, queue: Queue)

  const EMPTY := State(map[], map[], map[])

  // ---------------------------------------------------------------- what the operations do

  /** Queued SETs of a stream take its delivery method. */
  function Retagged(queue: Queue, stream: string, push: bool): (r: Queue)
    ensures r.Keys == queue.Keys
    ensures forall id :: id in r ==> r[id] == if queue[id].stream == stream then queue[id].(push := push) else queue[id]
  {
    map id | id in queue :: if queue[id].stream == stream then queue[id].(push := push) else queue[id]
  }

  function Without(queue: Queue, gone: Pending -> bool): (r: Queue)
    ensures forall id :: id in r <==> id in queue && !gone(queue[id])
    ensures forall id :: id in r ==> r[id] == queue[id]
  {
    map id | id in queue && !gone(queue[id]) :: queue[id]
  }

  function OfStream(stream: string): Pending -> bool { (p: Pending) => p.stream == stream }

  function Acked(stream: string, jtis: seq<string>): Pending -> bool
  {
    (p: Pending) => p.stream == stream && p.jti in jtis
  }

  function Updated(s: State, stream: Stream): State
  {
    State(s.streams[stream.id := stream], s.subjects, Retagged(s.queue, stream.id, stream.via == Push))
  }

  function Deleted(s: State, id: string): State
  {
    State(s.streams - {id}, s.subjects - {id}, Without(s.queue, OfStream(id)))
  }

  function AfterAck(s: State, stream: string, jtis: seq<string>): State
  {
    s.(queue := Without(s.queue, Acked(stream, jtis)))
  }

  function Marked(queue: Queue, id: string, attempts: nat, nextAt: int): Queue
  {
    if id in queue then queue[id := queue[id].(attempts := attempts, nextAt := nextAt)] else queue
  }

  // ---------------------------------------------------------------- the sorted queue

  /** Oldest first, by id among equals. */
  predicate Before(a: Pending, b: Pending)
  {
    a.createdAt < b.createdAt || (a.createdAt == b.createdAt && LexLess(a.id, b.id))
  }

  /** Every SET is filed under its own id. */
  ghost predicate Keyed(queue: Queue) { forall id :: id in queue ==> queue[id].id == id }

  ghost function Select(queue: Queue, want: Pending -> bool): (r: set<Pending>)
    ensures forall p :: p in r <==> exists id :: id in queue && queue[id] == p && want(p)
  {
    set id | id in queue && want(queue[id]) :: queue[id]
  }

  lemma BeforeIsLinear(queue: Queue, s: set<Pending>)
    requires Keyed(queue) && forall p :: p in s ==> p.id in queue && queue[p.id] == p
    ensures Linear(s, Before)
  {
    forall a, b, c | Before(a, b) && Before(b, c)
      ensures Before(a, c)
    {
      if a.createdAt == b.createdAt == c.createdAt {
        LexTransitive(a.id, b.id, c.id);
      }
    }
    forall a
      ensures !Before(a, a)
    {
      LexIrreflexive(a.id);
    }
    forall a, b | a in s && b in s
      ensures a == b || Before(a, b) || Before(b, a)
    {
      LexConnected(a.id, b.id);
    }
  }

  /** The wanted SETs in delivery order. */
  ghost function InOrder(queue: Queue, want: Pending -> bool): (r: seq<Pending>)
    requires Keyed(queue)
    ensures forall p :: p in r <==> p.id in queue && queue[p.id] == p && want(p)
    ensures Distinct(r)
  {
    BeforeIsLinear(queue, Select(queue, want));
    ArrangeIncreases(Select(queue, want), Before);
    Arrange(Select(queue, want), Before)
  }

  function Take<T>(q: seq<T>, limit: int): seq<T> { if 0 < limit < |q| then q[..limit] else q }

  function Due(now: int): Pending -> bool { (p: Pending) => p.push && p.nextAt <= now }

  // ---------------------------------------------------------------- the store in memory

  function SubjectsOf(s: State, id: string): set<string> { if id in s.subjects then s.subjects[id] else {} }

  /** The state after a subject was registered or taken back. */
  function WithSubject(s: State, id: string, key: string, add: bool): State
  {
    if add then s.(subjects := s.subjects[id := SubjectsOf(s, id) + {key}])
    else if id in s.subjects then s.(subjects := s.subjects[id := SubjectsOf(s, id) - {key}])
    else s
  }

  class MemoryStore {
    var streams: map<string, Stream>
    var subjects: map<string, set<string>>
    var queue: Queue

    ghost function Value(): State
      reads this
    {
      State(streams, subjects, queue)
    }

    constructor ()
      ensures Value() == EMPTY
    {
      streams, subjects, queue := map[], map[], map[];
    }

    method CreateStream(s: Stream)
      modifies this
      ensures Value() == old(Value()).(streams := old(streams)[s.id := s])
    {
      streams := streams[s.id := s];
    }

    /** Registers a subject of a stream, or takes it back. */
    method SetSubject(id: string, key: string, add: bool)
      modifies this
      ensures Value() == WithSubject(old(Value()), id, key, add)
    {
      if add {
        if id !in subjects {
          subjects := subjects[id := {}];
        }
        subjects := subjects[id := subjects[id] + {key}];
      } else if id in subjects {
        subjects := subjects[id := subjects[id] - {key}];
      }
    }

    /** Re-tags the queued SETs of a stream one by one. */
    method Retag(stream: string, push: bool)
      modifies this`queue
      ensures queue == Retagged(old(queue), stream, push)
    {
      ghost var before := queue;
      var todo := queue.Keys;
      while todo != {}
        invariant todo <= queue.Keys == before.Keys
        invariant forall id :: id in queue ==>
                    queue[id] == if id !in todo && before[id].stream == stream
                                 then before[id].(push := push) else before[id]
        decreases |todo|
      {
        var id :| id in todo;
        todo := todo - {id};
        var p := queue[id];
        if p.stream == stream {
          queue := queue[id := p.(push := push)];
        }
      }
    }

    /** Replaces a known stream and re-tags its queue. */
    method UpdateStream(s: Stream) returns (found: bool)
      modifies this
      ensures found <==> s.id in old(streams)
      ensures Value() == if found then Updated(old(Value()), s) else old(Value())
    {
      if s.id !in streams {
        return false;
      }
      streams := streams[s.id := s];
      Retag(s.id, s.via == Push);
      return true;
    }

    /** Removes the entries that satisfy `gone`, in arbitrary order, and counts them. */
    method RemoveWhere(gone: Pending -> bool) returns (n: nat)
      modifies this`queue
      ensures queue == Without(old(queue), gone)
      ensures n + |queue| == |old(queue)|
    {
      ghost var before := queue;
      var todo := queue.Keys;
      n := 0;
      while todo != {}
        invariant todo <= queue.Keys <= before.Keys
        invariant forall id :: id in queue ==> queue[id] == before[id]
        invariant forall id :: id in before ==> (id in queue <==> id in todo || !gone(before[id]))
        invariant n + |queue| == |before|
        decreases |todo|
      {
        var id :| id in todo;
        todo := todo - {id};
        if gone(queue[id]) {
          ghost var keys := queue.Keys;
          queue := queue - {id};
          assert queue.Keys == keys - {id};
          n := n + 1;
        }
      }
      assert queue == Without(before, gone);
    }

    method DeleteStream(id: string)
      modifies this
      ensures Value() == Deleted(old(Value()), id)
    {
      streams, subjects := streams - {id}, subjects - {id};
      var _ := RemoveWhere(OfStream(id));
    }

    method Enqueue(p: Pending)
      modifies this
      ensures Value() == old(Value()).(queue := old(queue)[p.id := p])
    {
      queue := queue[p.id := p];
    }

    /** Collects the wanted SETs in map order, sorts them and keeps at most `limit`. */
    method Sorted(want: Pending -> bool, limit: int) returns (out: seq<Pending>)
      requires Keyed(queue)
      ensures out == Take(InOrder(queue, want), limit)
    {
      out := [];
      var todo := queue.Keys;
      while todo != {}
        invariant todo <= queue.Keys && Distinct(out)
        invariant forall p :: p in out <==> p.id in queue && p.id !in todo && queue[p.id] == p && want(p)
        decreases |todo|
      {
        var id :| id in todo;
        todo := todo - {id};
        if want(queue[id]) {
          out := out + [queue[id]];
        }
      }
      assert Elements(out) == Select(queue, want);
      BeforeIsLinear(queue, Elements(out));
      SortArranges(out, Before);
      out := Sort(out, Before);
      if limit > 0 && |out| > limit {
        out := out[..limit];
      }
    }

    method DuePush(now: int, limit: int) returns (out: seq<Pending>)
      requires Keyed(queue)
      ensures out == Take(InOrder(queue, Due(now)), limit)
    {
      out := Sorted(Due(now), limit);
    }

    method PendingOf(stream: string, limit: int) returns (out: seq<Pending>)
      requires Keyed(queue)
      ensures out == Take(InOrder(queue, OfStream(stream)), limit)
    {
      out := Sorted(OfStream(stream), limit);
    }

    method MarkAttempt(id: string, attempts: nat, nextAt: int)
      modifies this
      ensures Value() == old(Value()).(queue := Marked(old(queue), id, attempts, nextAt))
    {
      if id in queue {
        queue := queue[id := queue[id].(attempts := attempts, nextAt := nextAt)];
      }
    }

    /** Removes the SETs of a stream with the given token ids and counts them. */
    method Ack(stream: string, jtis: seq<string>) returns (n: nat)
      modifies this
      ensures Value() == AfterAck(old(Value()), stream, jtis)
      ensures n + |queue| == |old(queue)|
    {
      n := RemoveWhere(Acked(stream, jtis));
    }

    method Drop(id: string)
      modifies this
      ensures Value() == old(Value()).(queue := old(queue) - {id})
    {
      queue := queue - {id};
    }
  }
}
