/** `worker`: the batch accumulator. Each iteration of its loop takes at most one
    item from the intake queue, and flushes the batch when it is full or when the
    batch timeout has elapsed with something in it. A flush hands the batch to the
    sink, then acks or nacks every message in it according to the sink's answer. */
module Worker {
  import opened Telemetry

  const BatchSize: nat := 10
  /** Seconds. */
  const BatchTimeout: real := 5.0

  /** One iteration's inputs: the outcome of `queue.get(timeout=1)`, the value
      of `time.time()` after it, and what `insert_batch` returns if it is called. */
  datatype Tick = Tick(item: Option<Item>, now: real, sinkOk: bool)

  /** The worker's variables (`batch_messages`, `batch_data`, `last_flush_time`),
      with the history of terminal calls made and of batches handed to the sink. */
  datatype WorkerState = WorkerState(
    messages: seq<MessageId>,
    data: seq<Reading>,
    lastFlush: real,
    log: seq<Event>,
    flushes: seq<seq<Reading>>)

  /** The state when the worker starts at time `start`. */
  function Initial(start: real): WorkerState {
    WorkerState([], [], start, [], [])
  }

  /** The ids of a sequence of terminal calls, in order. */
  function Ids(events: seq<Event>): (ids: seq<MessageId>)
    ensures |ids| == |events|
    ensures forall i :: 0 <= i < |events| ==> ids[i] == events[i].id
  {
    if events == [] then [] else [events[0].id] + Ids(events[1..])
  }

  /** The same terminal call `d`, once on each of `ids`, in order. */
  function Resolve(ids: seq<MessageId>, d: Disposition): (events: seq<Event>)
    ensures |events| == |ids|
    ensures forall i :: 0 <= i < |ids| ==> events[i] == Event(ids[i], d)
  {
    if ids == [] then [] else [Event(ids[0], d)] + Resolve(ids[1..], d)
  }

  /** The ids a dequeue returns: one or none. */
  function Arrived(item: Option<Item>): seq<MessageId> {
    if item.Some? then [item.value.id] else []
  }

  /** The records a dequeue returns: one or none. */
  function ArrivedData(item: Option<Item>): seq<Reading> {
    if item.Some? then [item.value.reading] else []
  }

  /** The flush condition: `is_batch_full or is_timeout` for a batch of `count`
      records. Both triggers are alternatives of one test. */
  predicate FlushDue(count: nat, lastFlush: real, now: real) {
    count >= BatchSize || (now - lastFlush >= BatchTimeout && count > 0)
  }

  /** One iteration of the worker's loop. */
  function Next(s: WorkerState, t: Tick): WorkerState {
    var messages := s.messages + Arrived(t.item);
    var data := s.data + ArrivedData(t.item);
    var isBatchFull := |data| >= BatchSize;
    var isTimeout := t.now - s.lastFlush >= BatchTimeout && |data| > 0;
    if (isBatchFull || isTimeout) && |data| > 0 then
      WorkerState([], [], t.now,
        s.log + Resolve(messages, if t.sinkOk then Acked else Nacked),
        s.flushes + [data])
    else
      WorkerState(messages, data, s.lastFlush, s.log, s.flushes)
  }

  /** The state invariant: the two lists run in parallel, the batch is below
      `BatchSize` between iterations, and every batch handed to the sink held
      between 1 and `BatchSize` records. */
  predicate Inv(s: WorkerState) {
    |s.messages| == |s.data| &&
    |s.messages| < BatchSize &&
    forall k :: 0 <= k < |s.flushes| ==> 0 < |s.flushes[k]| <= BatchSize
  }

  lemma NextKeepsInvariant(s: WorkerState, t: Tick)
    requires Inv(s)
    ensures Inv(Next(s, t))
  {
  }

  /** An iteration hands at most one batch to the sink: exactly one when the
      flush condition holds (with either trigger or both), and that batch is the
      old batch with the new item, if any, at its end. */
  lemma NextFlushesOnce(s: WorkerState, t: Tick)
    requires Inv(s)
    ensures var n := Next(s, t);
      var count := |s.data| + |ArrivedData(t.item)|;
      if FlushDue(count, s.lastFlush, t.now) then
        n.flushes == s.flushes + [s.data + ArrivedData(t.item)] && 0 < count <= BatchSize
      else
        n.flushes == s.flushes
  {
  }

  /** Without a flush, the new item goes to the end of both lists (FIFO), the
      timer is unchanged and no terminal call is made. */
  lemma NextAppendsAtEnd(s: WorkerState, t: Tick)
    requires !FlushDue(|s.data| + |ArrivedData(t.item)|, s.lastFlush, t.now)
    ensures Next(s, t).messages == s.messages + Arrived(t.item)
    ensures Next(s, t).data == s.data + ArrivedData(t.item)
    ensures Next(s, t).lastFlush == s.lastFlush && Next(s, t).log == s.log
  {
  }

  /** On a flush every message of the batch, and no other, receives the same
      terminal call: ack when the sink succeeded, nack when it failed. Both
      lists are then empty and the timer is reset to the iteration's time. */
  lemma NextAllOrNothing(s: WorkerState, t: Tick)
    requires FlushDue(|s.data| + |ArrivedData(t.item)|, s.lastFlush, t.now)
    ensures var n := Next(s, t);
      var batch := s.messages + Arrived(t.item);
      |n.log| == |s.log| + |batch| && n.log[..|s.log|] == s.log &&
      (forall i :: 0 <= i < |batch| ==>
        n.log[|s.log| + i].id == batch[i] &&
        n.log[|s.log| + i].disposition == (if t.sinkOk then Acked else Nacked)) &&
      n.messages == [] && n.data == [] && n.lastFlush == t.now
  {
  }

  /** Resolving a batch moves its ids, in order, from the batch to the log. */
  lemma ResolveMovesIds(log: seq<Event>, batch: seq<MessageId>, d: Disposition)
    ensures Ids(log + Resolve(batch, d)) == Ids(log) + batch
  {
    var r := Resolve(batch, d);
    assert Ids(r) == batch;
    assert Ids(log + r) == Ids(log) + Ids(r);
  }

  /** No message is lost or duplicated by an iteration: the ids that received a
      terminal call followed by the ids still in the batch grow by exactly the
      dequeued item. */
  lemma NextConserves(s: WorkerState, t: Tick)
    ensures Ids(Next(s, t).log) + Next(s, t).messages == Ids(s.log) + (s.messages + Arrived(t.item))
  {
    if FlushDue(|s.data| + |ArrivedData(t.item)|, s.lastFlush, t.now) {
      ResolveMovesIds(s.log, s.messages + Arrived(t.item), if t.sinkOk then Acked else Nacked);
    }
  }

  /** The worker's state after the iterations `ticks`, in order. */
  function Run(s: WorkerState, ticks: seq<Tick>): WorkerState
    decreases |ticks|
  {
    if ticks == [] then s else Next(Run(s, ticks[..|ticks| - 1]), ticks[|ticks| - 1])
  }

  /** The ids dequeued during `ticks`, in order. */
  function Dequeued(ticks: seq<Tick>): seq<MessageId>
    decreases |ticks|
  {
    if ticks == [] then [] else Dequeued(ticks[..|ticks| - 1]) + Arrived(ticks[|ticks| - 1].item)
  }

  /** The records dequeued during `ticks`, in order. */
  function DequeuedData(ticks: seq<Tick>): seq<Reading>
    decreases |ticks|
  {
    if ticks == [] then [] else DequeuedData(ticks[..|ticks| - 1]) + ArrivedData(ticks[|ticks| - 1].item)
  }

  lemma {:induction false} RunKeepsInvariant(s: WorkerState, ticks: seq<Tick>)
    requires Inv(s)
    ensures Inv(Run(s, ticks))
  {
    if ticks != [] {
      RunKeepsInvariant(s, ticks[..|ticks| - 1]);
      NextKeepsInvariant(Run(s, ticks[..|ticks| - 1]), ticks[|ticks| - 1]);
    }
  }

  lemma {:induction false} RunConserves(s: WorkerState, ticks: seq<Tick>)
    ensures Ids(Run(s, ticks).log) + Run(s, ticks).messages == Ids(s.log) + s.messages + Dequeued(ticks)
  {
    if ticks != [] {
      var init, last := ticks[..|ticks| - 1], ticks[|ticks| - 1];
      var p, n := Run(s, init), Run(s, ticks);
      assert Ids(p.log) + p.messages == Ids(s.log) + s.messages + Dequeued(init) by {
        RunConserves(s, init);
      }
      assert Ids(n.log) + n.messages == Ids(p.log) + (p.messages + Arrived(last.item)) by {
        NextConserves(p, last);
      }
      Regroup(Ids(n.log) + n.messages, Ids(p.log), p.messages, Ids(s.log) + s.messages, Dequeued(init), Arrived(last.item));
    }
  }

  lemma Regroup(x: seq<MessageId>, p1: seq<MessageId>, p2: seq<MessageId>, q: seq<MessageId>, d: seq<MessageId>, a: seq<MessageId>)
    requires x == p1 + (p2 + a) && p1 + p2 == q + d
    ensures x == q + (d + a)
  {
    assert p1 + (p2 + a) == (p1 + p2) + a;
    assert (q + d) + a == q + (d + a);
  }

  predicate Distinct(ids: seq<MessageId>) {
    forall i, j :: 0 <= i < j < |ids| ==> ids[i] != ids[j]
  }

  lemma {:induction false} DistinctOccursOnce(ids: seq<MessageId>, x: MessageId)
    requires Distinct(ids) && x in ids
    ensures multiset(ids)[x] == 1
  {
    assert ids == [ids[0]] + ids[1..];
    if ids[0] == x {
      assert x !in ids[1..] by {
        forall j | 0 <= j < |ids[1..]| ensures ids[1..][j] != x {
          assert ids[1..][j] == ids[j + 1];
        }
      }
    } else {
      DistinctOccursOnce(ids[1..], x);
    }
  }

  /** Every message handle that entered a batch, when the transport's ids are
      distinct, has received exactly one terminal call or is still in the
      current batch, and never both; a handle that never entered a batch has
      received none. */
  lemma ExactlyOneTerminalCall(start: real, ticks: seq<Tick>, id: MessageId)
    requires Distinct(Dequeued(ticks))
    ensures var r := Run(Initial(start), ticks);
      multiset(Ids(r.log))[id] + multiset(r.messages)[id] == (if id in Dequeued(ticks) then 1 else 0)
  {
    var r := Run(Initial(start), ticks);
    InitialConserves(start, ticks);
    DistinctSplitCount(Ids(r.log), r.messages, Dequeued(ticks), id);
  }

  /** From the initial state, the resolved ids followed by the batched ids are
      exactly the dequeued ids. */
  lemma InitialConserves(start: real, ticks: seq<Tick>)
    ensures Ids(Run(Initial(start), ticks).log) + Run(Initial(start), ticks).messages == Dequeued(ticks)
  {
    RunConserves(Initial(start), ticks);
    assert Ids(Initial(start).log) + Initial(start).messages == [];
  }

  /** When `a` followed by `b` lists distinct ids `d`, each id of `d` occurs
      once in `a` or once in `b`, and any other id in neither. */
  lemma DistinctSplitCount(a: seq<MessageId>, b: seq<MessageId>, d: seq<MessageId>, x: MessageId)
    requires a + b == d && Distinct(d)
    ensures multiset(a)[x] + multiset(b)[x] == (if x in d then 1 else 0)
  {
    assert multiset(d) == multiset(a) + multiset(b);
    if x in d {
      DistinctOccursOnce(d, x);
    }
  }

  /** Iterations that each dequeue an item, fewer than `BatchSize` and all before
      the timeout, only accumulate. */
  lemma {:induction false} BurstAccumulates(start: real, ticks: seq<Tick>)
    requires |ticks| < BatchSize
    requires forall k :: 0 <= k < |ticks| ==> ticks[k].item.Some? && ticks[k].now - start < BatchTimeout
    ensures Run(Initial(start), ticks) == WorkerState(Dequeued(ticks), DequeuedData(ticks), start, [], [])
    ensures |DequeuedData(ticks)| == |ticks|
  {
    if ticks != [] {
      var init := ticks[..|ticks| - 1];
      assert forall k :: 0 <= k < |init| ==> init[k] == ticks[k];
      BurstAccumulates(start, init);
    }
  }

  /** `BatchSize` items dequeued before the timeout cause exactly one flush, of
      all of them, on the iteration that dequeues the last one. */
  lemma BurstFlushesOnce(start: real, ticks: seq<Tick>)
    requires |ticks| == BatchSize
    requires forall k :: 0 <= k < |ticks| ==> ticks[k].item.Some? && ticks[k].now - start < BatchTimeout
    ensures Run(Initial(start), ticks).flushes == [DequeuedData(ticks)]
    ensures |DequeuedData(ticks)| == BatchSize
    ensures Run(Initial(start), ticks).messages == []
  {
    var init := ticks[..|ticks| - 1];
    assert forall k :: 0 <= k < |init| ==> init[k] == ticks[k];
    BurstAccumulates(start, init);
  }

  /** One item followed, at or after the timeout, by an empty dequeue causes
      exactly one flush, of that one record, resolved as the sink answered. */
  lemma TrickleFlushesOnTimeout(start: real, it: Item, t1: real, t2: real, ok1: bool, ok2: bool)
    requires t1 - start < BatchTimeout && t2 - start >= BatchTimeout
    ensures var r := Run(Initial(start), [Tick(Some(it), t1, ok1), Tick(None, t2, ok2)]);
      r.flushes == [[it.reading]] &&
      r.log == [Event(it.id, if ok2 then Acked else Nacked)] &&
      r.messages == [] && r.lastFlush == t2
  {
    var ticks := [Tick(Some(it), t1, ok1), Tick(None, t2, ok2)];
    var s0 := Initial(start);
    assert ticks[..1] == [ticks[0]] && [ticks[0]][..0] == [];
    assert Run(s0, ticks[..1]) == Next(s0, ticks[0]);
    assert [] + [it.reading] == [it.reading] + [] == [it.reading];
    assert [] + [it.id] == [it.id] + [] == [it.id];
    var s1 := WorkerState([it.id], [it.reading], start, [], []);
    assert Next(s0, ticks[0]) == s1;
    assert Run(s0, ticks) == Next(s1, ticks[1]);
  }

  /** The worker thread's state. Only `batchMessages`, `batchData` and
      `lastFlushTime` are real; the log of terminal calls and the batches handed
      to the sink are ghost history. */
  class BatchWorker {
    var batchMessages: seq<MessageId>
    var batchData: seq<Reading>
    var lastFlushTime: real
    ghost var log: seq<Event>
    ghost var flushes: seq<seq<Reading>>

    ghost function State(): WorkerState
      reads this
    {
      WorkerState(batchMessages, batchData, lastFlushTime, log, flushes)
    }

    ghost predicate Valid()
      reads this
    {
      Inv(State())
    }

    /** The worker starts with empty lists and `last_flush_time = time.time()`. */
    constructor (start: real)
      ensures Valid() && State() == Initial(start)
    {
      batchMessages, batchData, lastFlushTime := [], [], start;
      log, flushes := [], [];
    }

    /** One iteration of the `while True` loop. */
    method Step(item: Option<Item>, now: real, sinkOk: bool)
      requires Valid()
      modifies this
      ensures Valid()
      ensures State() == Next(old(State()), Tick(item, now, sinkOk))
    {
      ghost var before := State();
      if item.Some? {
        batchMessages := batchMessages + [item.value.id];
        batchData := batchData + [item.value.reading];
      }
      assert batchMessages == before.messages + Arrived(item);
      assert batchData == before.data + ArrivedData(item);
      var isBatchFull := |batchData| >= BatchSize;
      var isTimeout := now - lastFlushTime >= BatchTimeout && |batchData| > 0;
      if isBatchFull || isTimeout {
        if |batchData| > 0 {
          Flush(now, sinkOk);
        }
      }
      NextKeepsInvariant(before, Tick(item, now, sinkOk));
    }

    /** The flush: `insert_batch(batch_data)` has answered `sinkOk`; every
        message of the batch is acked or nacked accordingly, in order, then both
        lists are cleared and the timer is reset to `now`. */
    method Flush(now: real, sinkOk: bool)
      modifies this
      ensures log == old(log) + Resolve(old(batchMessages), if sinkOk then Acked else Nacked)
      ensures flushes == old(flushes) + [old(batchData)]
      ensures batchMessages == [] && batchData == [] && lastFlushTime == now
    {
      var terminal := if sinkOk then Acked else Nacked;
      flushes := flushes + [batchData];
      // `msg.ack()` or `msg.nack()` for each message of the batch, in order
      ghost var calls := log;
      var i := 0;
      while i < |batchMessages|
        invariant 0 <= i <= |batchMessages|
        invariant calls == old(log) + Resolve(batchMessages[..i], terminal)
        modifies {}
      {
        assert batchMessages[..i + 1] == batchMessages[..i] + [batchMessages[i]];
        ResolveAppend(batchMessages[..i], batchMessages[i], terminal);
        calls := calls + [Event(batchMessages[i], terminal)];
        i := i + 1;
      }
      assert batchMessages[..i] == batchMessages;
      log := calls;
      batchData := [];
      batchMessages := [];
      lastFlushTime := now;
    }
  }

  lemma ResolveAppend(ids: seq<MessageId>, x: MessageId, d: Disposition)
    ensures Resolve(ids + [x], d) == Resolve(ids, d) + [Event(x, d)]
  {
  }
}
