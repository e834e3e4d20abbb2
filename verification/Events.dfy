/** The drop-oldest publish/subscribe bus (app/core/events.py). */
module Events {
  import opened Wrappers

  datatype Event = Event(kind: string, data: string)

  // -------------------------------------------------------- one subscriber's feed

  /** A subscriber's queue, with what it has received and how much was dropped. */
  datatype Feed = Feed(queue: seq<Event>, received: seq<Event>, dropped: nat)

  const NEW_FEED: Feed := Feed([], [], 0)

  /** A size below one means an unbounded queue. */
  predicate Full(bound: int, queue: seq<Event>) {
    bound > 0 && |queue| >= bound
  }

  /** Enqueue, dropping the oldest events for as long as the queue is full. */
  function Offered(bound: int, f: Feed, e: Event): Feed
    decreases |f.queue|
  {
    if Full(bound, f.queue) then Offered(bound, f.(queue := f.queue[1..], dropped := f.dropped + 1), e)
    else f.(queue := f.queue + [e])
  }

  function Taken(f: Feed): Feed {
    if f.queue == [] then f else f.(queue := f.queue[1..], received := f.received + [f.queue[0]])
  }

  /** `asyncio.Queue`, with its feed's history as ghost state. */
  class Queue {
    const maxsize: int
    var items: seq<Event>
    ghost var received: seq<Event>
    ghost var dropped: nat

    ghost function View(): Feed
      reads this
    {
      Feed(items, received, dropped)
    }

    constructor (maxsize: int)
      ensures this.maxsize == maxsize && View() == NEW_FEED
    {
      this.maxsize := maxsize;
      items := [];
      received, dropped := [], 0;
    }

    method PutNowait(e: Event) returns (ok: bool)
      modifies this
      ensures ok == !Full(maxsize, old(items))
      ensures View() == if ok then old(View()).(queue := old(items) + [e]) else old(View())
    {
      if Full(maxsize, items) {
        return false;
      }
      items := items + [e];
      return true;
    }

    /** Take the oldest event; it is a drop when the bus itself takes it. */
    method GetNowait(ghost drop: bool) returns (e: Option<Event>)
      modifies this
      ensures e == if old(items) == [] then None else Some(old(items)[0])
      ensures View() ==
        if old(items) == [] then old(View())
        else if drop then old(View()).(queue := old(items)[1..], dropped := old(dropped) + 1)
        else Taken(old(View()))
    {
      if items == [] {
        return None;
      }
      e := Some(items[0]);
      items := items[1..];
      if drop {
        dropped := dropped + 1;
      } else {
        received := received + [e.value];
      }
    }
  }

  class EventBus {
    const queueSize: int
    var subscribers: set<Queue>

    constructor (queueSize: int)
      ensures this.queueSize == queueSize && subscribers == {}
    {
      this.queueSize := queueSize;
      subscribers := {};
    }

    method Subscribe() returns (queue: Queue)
      modifies this
      ensures fresh(queue) && queue.maxsize == queueSize && queue.View() == NEW_FEED
      ensures subscribers == old(subscribers) + {queue}
    {
      queue := new Queue(queueSize);
      subscribers := subscribers + {queue};
    }

    method Unsubscribe(queue: Queue)
      modifies this
      ensures subscribers == old(subscribers) - {queue}
    {
      subscribers := subscribers - {queue};
    }

    /** Every subscriber is offered the event, and no one else is touched. */
    method Publish(e: Event)
      modifies subscribers
      ensures subscribers == old(subscribers)
      ensures forall q | q in subscribers :: q.View() == Offered(q.maxsize, old(q.View()), e)
    {
      var todo := subscribers;
      while todo != {}
        invariant todo <= subscribers
        invariant forall q | q in subscribers ::
          q.View() == if q in todo then old(q.View()) else Offered(q.maxsize, old(q.View()), e)
        decreases todo
      {
        var q :| q in todo;
        Offer(q, e);
        todo := todo - {q};
      }
    }

    /** The retry loop ends because each turn either enqueues or makes room. */
    method Offer(q: Queue, e: Event)
      modifies q
      ensures q.View() == Offered(q.maxsize, old(q.View()), e)
    {
      while true
        invariant Offered(q.maxsize, q.View(), e) == Offered(q.maxsize, old(q.View()), e)
        decreases |q.items|
      {
        var ok := q.PutNowait(e);
        if ok {
          return;
        }
        var oldest := q.GetNowait(true);
        if oldest.Some? {
          continue;
        }
        return;
      }
    }
  }

  // --------------------------------------------------------------- specification

  datatype Op = Publish(e: Event) | Get

  /** The feed after a run of its own operations. */
  function FeedAfter(bound: int, ops: seq<Op>): Feed {
    if ops == [] then NEW_FEED
    else
      var f := FeedAfter(bound, ops[..|ops| - 1]);
      match ops[|ops| - 1]
      case Publish(e) => Offered(bound, f, e)
      case Get => Taken(f)
  }

  /** All that was published, in order. */
  function Log(ops: seq<Op>): seq<Event> {
    if ops == [] then []
    else
      match ops[|ops| - 1]
      case Publish(e) => Log(ops[..|ops| - 1]) + [e]
      case Get => Log(ops[..|ops| - 1])
  }

  /** A reader of the full log that never lags more than `bound` behind: the position
      of the next event it will read. */
  function Position(bound: int, ops: seq<Op>): nat {
    if ops == [] then 0
    else
      var p, n := Position(bound, ops[..|ops| - 1]), |Log(ops)|;
      match ops[|ops| - 1]
      case Publish(_) => if bound > 0 && n - p > bound then n - bound else p
      case Get => if p < n then p + 1 else p
  }

  /** What that reader has read. */
  function ReadSoFar(bound: int, ops: seq<Op>): seq<Event> {
    if ops == [] then []
    else
      var init := ops[..|ops| - 1];
      var before, p := ReadSoFar(bound, init), Position(bound, init);
      if ops[|ops| - 1] == Get && p < |Log(init)| then before + [Log(init)[p]] else before
  }

  lemma {:induction false} PositionInLog(bound: int, ops: seq<Op>)
    ensures Position(bound, ops) <= |Log(ops)|
    ensures bound > 0 ==> |Log(ops)| - Position(bound, ops) <= bound
  {
    if ops != [] {
      PositionInLog(bound, ops[..|ops| - 1]);
    }
  }

  /** A queue within its bound drops at most one event. */
  lemma OfferedOnce(bound: int, f: Feed, e: Event)
    requires bound > 0 ==> |f.queue| <= bound
    ensures Offered(bound, f, e) ==
      if Full(bound, f.queue) then Feed(f.queue[1..] + [e], f.received, f.dropped + 1) else f.(queue := f.queue + [e])
  {
  }

  lemma PublishStep(bound: int, f: Feed, log: seq<Event>, p: nat, e: Event)
    requires p <= |log| && f.queue == log[p..] && (bound > 0 ==> |log| - p <= bound)
    ensures var n := |log| + 1;
      var p' := if bound > 0 && n - p > bound then n - bound else p;
      && 0 <= p' <= n
      && Offered(bound, f, e) == Feed((log + [e])[p'..], f.received, f.dropped + (p' - p))
  {
    OfferedOnce(bound, f, e);
    assert Full(bound, f.queue) ==> f.queue[1..] + [e] == (log + [e])[p + 1..];
  }

  /** The bounded queue refines the log reader: it holds exactly what the reader has yet
      to read, so the newest undelivered events up to the bound, and the same events
      have been received. Everything published was received, dropped, or is queued. */
  lemma {:induction false} FeedIsLogReader(bound: int, ops: seq<Op>)
    ensures Position(bound, ops) <= |Log(ops)|
    ensures var f := FeedAfter(bound, ops);
      && f.queue == Log(ops)[Position(bound, ops)..]
      && f.received == ReadSoFar(bound, ops)
      && (bound > 0 ==> |f.queue| <= bound)
      && |f.received| + f.dropped + |f.queue| == |Log(ops)|
  {
    PositionInLog(bound, ops);
    if ops != [] {
      var init := ops[..|ops| - 1];
      PositionInLog(bound, init);
      FeedIsLogReader(bound, init);
      var f, log, p := FeedAfter(bound, init), Log(init), Position(bound, init);
      match ops[|ops| - 1] {
        case Publish(e) =>
          PublishStep(bound, f, log, p, e);
        case Get =>
          if f.queue != [] {
            assert f.queue[1..] == log[p + 1..] && f.queue[0] == log[p];
          }
      }
    }
  }

  /** `a` arises from `b` by leaving out elements. */
  predicate Subsequence(a: seq<Event>, b: seq<Event>) {
    if b == [] then a == []
    else
      var n := |b| - 1;
      Subsequence(a, b[..n]) || (a != [] && a[|a| - 1] == b[n] && Subsequence(a[..|a| - 1], b[..n]))
  }

  lemma {:induction false} SubsequenceSkip(a: seq<Event>, b: seq<Event>, c: seq<Event>)
    requires Subsequence(a, b)
    ensures Subsequence(a, b + c)
  {
    if c == [] {
      assert b + c == b;
    } else {
      SubsequenceSkip(a, b, c[..|c| - 1]);
      assert (b + c)[..|b + c| - 1] == b + c[..|c| - 1];
    }
  }

  lemma {:induction false} SubsequenceAppend(a: seq<Event>, b: seq<Event>, c: seq<Event>)
    requires Subsequence(a, b)
    ensures Subsequence(a + c, b + c)
  {
    if c == [] {
      assert a + c == a && b + c == b;
    } else {
      var n := |c| - 1;
      SubsequenceAppend(a, b, c[..n]);
      assert (b + c)[..|b| + n] == b + c[..n] && (a + c)[..|a| + n] == a + c[..n];
      assert (b + c)[|b| + n] == c[n] && (a + c)[|a| + n] == c[n];
    }
  }

  lemma {:induction false} ReadIsSubsequence(bound: int, ops: seq<Op>)
    ensures Position(bound, ops) <= |Log(ops)|
    ensures Subsequence(ReadSoFar(bound, ops), Log(ops)[..Position(bound, ops)])
  {
    PositionInLog(bound, ops);
    if ops != [] {
      var init := ops[..|ops| - 1];
      var read, log, p := ReadSoFar(bound, init), Log(init), Position(bound, init);
      PositionInLog(bound, init);
      ReadIsSubsequence(bound, init);
      if ops[|ops| - 1] == Get && p < |log| {
        SubsequenceAppend(read, log[..p], [log[p]]);
        assert log[..p + 1] == log[..p] + [log[p]];
      } else {
        var p' := Position(bound, ops);
        SubsequenceSkip(read, log[..p], Log(ops)[p..p']);
        assert Log(ops)[..p'] == log[..p] + Log(ops)[p..p'];
      }
    }
  }

  /** What a subscriber received, followed by what is queued for it, is a subsequence of
      what was published since it subscribed. */
  lemma ReceivedThenQueued(bound: int, ops: seq<Op>)
    ensures Subsequence(FeedAfter(bound, ops).received + FeedAfter(bound, ops).queue, Log(ops))
  {
    FeedIsLogReader(bound, ops);
    ReadIsSubsequence(bound, ops);
    var log, p := Log(ops), Position(bound, ops);
    SubsequenceAppend(ReadSoFar(bound, ops), log[..p], log[p..]);
    assert log[..p] + log[p..] == log;
  }

  // -------------------------------------------------------------- many subscribers

  datatype BusOp = Join(id: nat) | Leave(id: nat) | Emit(e: Event) | Take(id: nat)

  datatype Bus = Bus(feeds: map<nat, Feed>, live: set<nat>)

  /** One operation on the whole bus; a left subscriber keeps its queue but gets nothing new. */
  function BusStep(bound: int, b: Bus, op: BusOp): Bus {
    match op
    case Join(id) => if id in b.feeds then b else Bus(b.feeds[id := NEW_FEED], b.live + {id})
    case Leave(id) => b.(live := b.live - {id})
    case Emit(e) => b.(feeds := map id | id in b.feeds ::
        if id in b.live then Offered(bound, b.feeds[id], e) else b.feeds[id])
    case Take(id) => if id in b.feeds then b.(feeds := b.feeds[id := Taken(b.feeds[id])]) else b
  }

  function BusAfter(bound: int, run: seq<BusOp>): Bus {
    if run == [] then Bus(map[], {}) else BusStep(bound, BusAfter(bound, run[..|run| - 1]), run[|run| - 1])
  }

  /** What concerns one subscriber: what was published while it was subscribed, and its own reads. */
  function Seen(bound: int, run: seq<BusOp>, id: nat): seq<Op> {
    if run == [] then []
    else
      var init := run[..|run| - 1];
      var before, b := Seen(bound, init, id), BusAfter(bound, init);
      match run[|run| - 1]
      case Emit(e) => if id in b.live then before + [Publish(e)] else before
      case Take(i) => if i == id && id in b.feeds then before + [Get] else before
      case _ => before
  }

  /** Under any interleaving, a subscriber's feed is the one its own operations give:
      no other subscriber influences it. */
  lemma {:induction false} FeedsAreIndependent(bound: int, run: seq<BusOp>, id: nat)
    ensures var b := BusAfter(bound, run);
      && b.live <= b.feeds.Keys
      && (id in b.feeds ==> b.feeds[id] == FeedAfter(bound, Seen(bound, run, id)))
      && (id !in b.feeds ==> Seen(bound, run, id) == [])
  {
    if run != [] {
      var init := run[..|run| - 1];
      FeedsAreIndependent(bound, init, id);
      var before := Seen(bound, init, id);
      assert forall op :: (before + [op])[..|before|] == before;
    }
  }
}
