/** With one worker, no scheduling rules, and events that are never retried, the event queue
    refines a first-in first-out queue as long as no tick schedules an event past an older
    one that it leaves behind. */
module EventQueueFifo {
  import opened Common
  import opened EventQueue
  import opened EventQueueRuns

  predicate AllPutBack(txn: Txn) {
    forall id :: id in txn.items ==> id in txn.outcomes
  }

  /** One worker at a time, which puts back each event as OK or Missing before it goes on, and
      dies only with nothing in hand; its handlers may emit; no rule is ever added. */
  predicate FifoStep(s: State, step: Step)
    requires Enabled(s, step)
  {
    match step
    case Advance(_) => true
    case Enqueue(_) => true
    case Tick => true
    case Begin(_) => s.txns == map[]
    case Dequeue(tx) => AllPutBack(s.txns[tx])
    case PutBack(_, _, outcome) => outcome.AsOk? || outcome.AsMissing?
    case Emit(_, _) => true
    case Commit(tx) => AllPutBack(s.txns[tx])
    case Rollback(tx) => s.txns[tx].items == map[] && s.txns[tx].emitted == map[]
    case _ => false
  }

  predicate FifoRun(s: State, steps: seq<Step>)
    requires Legal(s, steps)
    decreases |steps|
  {
    |steps| == 0 || (FifoStep(s, steps[0]) && FifoRun(Apply(s, steps[0]), steps[1..]))
  }

  // ---- What a run delivers

  function DeliveredId(s: State, step: Step): seq<EventId>
    requires Enabled(s, step)
  {
    if step.Dequeue? && Dequeued(s, step.tx).Some? then [Dequeued(s, step.tx).value] else []
  }

  /** The events that the dequeues of a run return. */
  function DeliveredIds(s: State, steps: seq<Step>): seq<EventId>
    requires Legal(s, steps)
    decreases |steps|
  {
    if |steps| == 0 then []
    else DeliveredId(s, steps[0]) + DeliveredIds(Apply(s, steps[0]), steps[1..])
  }

  function Delivery(s: State, step: Step): seq<Work>
    requires Enabled(s, step)
  {
    if step.Dequeue? && Dequeued(s, step.tx).Some? then [s.events[Dequeued(s, step.tx).value].work] else []
  }

  /** What these events carry. */
  function Delivered(s: State, steps: seq<Step>): seq<Work>
    requires Legal(s, steps)
    decreases |steps|
  {
    if |steps| == 0 then []
    else Delivery(s, steps[0]) + Delivered(Apply(s, steps[0]), steps[1..])
  }

  /** Ids are given out in the order of sending, so these are the events sent from the n-th on. */
  predicate InOrder(n: nat, ids: seq<EventId>) {
    forall k :: 0 <= k < |ids| ==> ids[k] == n + k
  }

  lemma InOrderConcat(n: nat, a: seq<EventId>, b: seq<EventId>)
    ensures InOrder(n, a + b) <==> InOrder(n, a) && InOrder(n + |a|, b)
  {
    if InOrder(n, a + b) {
      forall k | 0 <= k < |a| ensures a[k] == n + k { assert (a + b)[k] == a[k]; }
      forall k | 0 <= k < |b| ensures b[k] == n + |a| + k { assert (a + b)[|a| + k] == b[k]; }
    }
  }

  /** `works[k]` is what event `ids[k]` was sent with. */
  ghost predicate Carry(works: seq<Work>, ids: seq<EventId>, log: seq<Work>) {
    |works| == |ids| && forall k :: 0 <= k < |ids| ==> ids[k] < |log| && works[k] == log[ids[k]]
  }

  lemma DeliveryCarries(s: State, step: Step, log: seq<Work>, more: seq<Work>)
    requires Inv(s) && Recorded(s, log) && Enabled(s, step)
    ensures Carry(Delivery(s, step), DeliveredId(s, step), log + more)
  {
    if step.Dequeue? && Dequeued(s, step.tx).Some? {
      DequeuedIsFree(s, step.tx);
      assert AllRecorded(s.events, log);
    }
  }

  lemma CarryConcat(a: seq<Work>, b: seq<Work>, is_: seq<EventId>, js: seq<EventId>, log: seq<Work>)
    requires Carry(a, is_, log) && Carry(b, js, log)
    ensures Carry(a + b, is_ + js, log)
  {}

  lemma {:induction false} DeliveredCarry(s: State, steps: seq<Step>, log: seq<Work>)
    requires Inv(s) && Recorded(s, log) && Legal(s, steps)
    ensures Carry(Delivered(s, steps), DeliveredIds(s, steps), log + Sent(s, steps))
    decreases |steps|
  {
    if |steps| == 0 {
      assert Delivered(s, steps) == [] && DeliveredIds(s, steps) == [];
    } else {
      var step, rest := steps[0], steps[1..];
      var s', log' := Apply(s, step), LogAfter(log, step);
      StepKeepsInv(s, step);
      StepKeepsRecord(s, step, log);
      DeliveredCarry(s', rest, log');
      SentLogs(s, steps, log);
      DeliveryCarries(s, step, log, Sent(s, steps));
      CarryConcat(Delivery(s, step), Delivered(s', rest), DeliveredId(s, step), DeliveredIds(s', rest),
                  log + Sent(s, steps));
    }
  }

  lemma SentLogs(s: State, steps: seq<Step>, log: seq<Work>)
    requires Legal(s, steps) && |steps| > 0
    ensures LogAfter(log, steps[0]) + Sent(Apply(s, steps[0]), steps[1..]) == log + Sent(s, steps)
  {}

  // ---- Ticks

  ghost predicate Emitted(s: State, id: EventId) {
    exists t :: t in s.txns && id in s.txns[t].emitted
  }

  predicate Due(s: State, id: EventId) {
    id in s.events && s.events[id].status.New? && s.events[id].delayUntil < s.now
  }

  /** A tick leaves the event behind: its time has not come or its emit is not committed. */
  ghost predicate LeftBehind(s: State, id: EventId) {
    (id in s.events && s.events[id].status.New? && !Due(s, id)) || Emitted(s, id)
  }

  /** The events a tick would schedule now are older than all it would leave behind. */
  ghost predicate DueInOrder(s: State) {
    forall i: EventId, j: EventId :: LeftBehind(s, i) && Due(s, j) ==> j < i
  }

  ghost predicate TicksInOrder(s: State, steps: seq<Step>)
    requires Legal(s, steps)
    decreases |steps|
  {
    |steps| == 0 || ((steps[0].Tick? ==> DueInOrder(s)) && TicksInOrder(Apply(s, steps[0]), steps[1..]))
  }

  // ---- The invariant: `n` events were delivered

  ghost predicate Numbered(s: State) {
    forall id: EventId :: id < s.nextId <==> id in s.events || Emitted(s, id)
  }

  ghost predicate Quiet(s: State) {
    && s.rules == {}
    && (forall t, u :: t in s.txns && u in s.txns ==> t == u)
    && forall t :: t in s.txns ==> QuietTxn(s.txns[t])
  }

  predicate QuietTxn(txn: Txn) {
    forall id :: id in txn.outcomes ==> txn.outcomes[id].AsOk? || txn.outcomes[id].AsMissing?
  }

  ghost predicate DeliveredOk(s: State, n: nat) {
    forall id: EventId :: id < n ==>
      id in s.events && !s.events[id].status.New? && (s.events[id].status.Scheduled? ==> Held(s, id))
  }

  ghost predicate WaitingOk(s: State, n: nat) {
    forall id :: id in s.events && id >= n ==>
      (s.events[id].status.New? || s.events[id].status.Scheduled?) && !Held(s, id)
  }

  /** Committed as new, or not yet committed. */
  ghost predicate Pending(s: State, id: EventId) {
    (id in s.events && s.events[id].status.New?) || Emitted(s, id)
  }

  /** Every scheduled event is below every pending one. */
  ghost predicate Ordered(s: State) {
    forall i: EventId, j: EventId :: Pending(s, i) && j in s.events && s.events[j].status.Scheduled? ==> j < i
  }

  /** The invariant, the order aside. */
  ghost predicate WorkerInv(s: State, n: nat) {
    Inv(s) && Numbered(s) && Quiet(s) && DeliveredOk(s, n) && WaitingOk(s, n)
  }

  ghost predicate FifoInv(s: State, n: nat) {
    WorkerInv(s, n) && Ordered(s)
  }

  // ---- Steps

  lemma StepStaysQuiet(s: State, step: Step)
    requires Enabled(s, step) && FifoStep(s, step) && Quiet(s)
    ensures Quiet(Apply(s, step))
  {}

  lemma EmittedAfterStep(s: State, step: Step, id: EventId)
    requires Inv(s) && Quiet(s) && Enabled(s, step) && FifoStep(s, step)
    ensures Emitted(Apply(s, step), id) <==>
              (Emitted(s, id) && !step.Commit?) || (step.Emit? && id == s.nextId)
  {
    var s' := Apply(s, step);
    if Emitted(s, id) && !step.Commit? {
      var t :| t in s.txns && id in s.txns[t].emitted;
      assert t in s'.txns && id in s'.txns[t].emitted;
    }
    if step.Emit? && id == s.nextId {
      assert step.tx in s'.txns && id in s'.txns[step.tx].emitted;
    }
    if Emitted(s', id) {
      var t :| t in s'.txns && id in s'.txns[t].emitted;
      EmittedAfter(s, step, t, id);
    }
  }

  /** Which rows are there after a step. */
  lemma RowsThere(s: State, step: Step, id: EventId)
    requires Inv(s) && Quiet(s) && Enabled(s, step) && FifoStep(s, step)
    ensures id in Apply(s, step).events <==>
              id in s.events || (step.Enqueue? && id == s.nextId) || (step.Commit? && Emitted(s, id))
    ensures id in Apply(s, step).events && id !in s.events ==> Apply(s, step).events[id].status.New?
  {
    EventsAfter(s, step);
    if step.Commit? {
      assert TxnOk(s, s.txns[step.tx]);
      if Emitted(s, id) {
        var t :| t in s.txns && id in s.txns[t].emitted;
        assert t == step.tx;
      }
    }
  }

  lemma StepStaysNumbered(s: State, step: Step)
    requires Inv(s) && Quiet(s) && Numbered(s) && Enabled(s, step) && FifoStep(s, step)
    ensures Numbered(Apply(s, step))
  {
    var s' := Apply(s, step);
    forall id: EventId ensures id < s'.nextId <==> id in s'.events || Emitted(s', id) {
      EmittedAfterStep(s, step, id);
      RowsThere(s, step, id);
      assert id < s.nextId <==> id in s.events || Emitted(s, id);
    }
  }

  /** A dequeue that finds something delivers event n. */
  lemma DequeueDeliversNext(s: State, tx: TxnId, n: nat)
    requires FifoInv(s, n) && tx in s.txns && AllPutBack(s.txns[tx]) && Dequeued(s, tx).Some?
    ensures Dequeued(s, tx) == Some(n)
  {
    var id := Dequeued(s, tx).value;
    DequeueTakesUndelivered(s, tx, n);
    if n < id {
      assert n < s.nextId;
      assert !Pending(s, n);
      assert n in s.events && s.events[n].status.Scheduled? && !Held(s, n);
      assert !HeldByOther(s, tx, n);
      assert Free(s, tx, n);
      DequeueTakesLowestFree(s, tx, id);
    }
  }

  lemma DequeueTakesUndelivered(s: State, tx: TxnId, n: nat)
    requires WorkerInv(s, n) && tx in s.txns && AllPutBack(s.txns[tx]) && Dequeued(s, tx).Some?
    ensures var id := Dequeued(s, tx).value; n <= id < s.nextId && id in s.events && s.events[id].status.Scheduled?
  {
    var id := Dequeued(s, tx).value;
    DequeuedIsFree(s, tx);
    assert TxnOk(s, s.txns[tx]);
    forall t | t in s.txns ensures id !in s.txns[t].items {
      assert t == tx;
    }
    assert !Held(s, id);
  }

  function CountAfter(s: State, step: Step, n: nat): nat
    requires Enabled(s, step)
  {
    n + |DeliveredId(s, step)|
  }

  lemma HeldAfter(s: State, step: Step, id: EventId)
    requires Inv(s) && Quiet(s) && Enabled(s, step) && FifoStep(s, step)
    ensures Held(Apply(s, step), id) <==>
              (Held(s, id) && !step.Commit?) || (step.Dequeue? && Dequeued(s, step.tx) == Some(id))
  {
    var s' := Apply(s, step);
    if Held(s, id) && !step.Commit? {
      var t :| t in s.txns && id in s.txns[t].items;
      assert t in s'.txns && id in s'.txns[t].items;
    }
    if step.Dequeue? && Dequeued(s, step.tx) == Some(id) {
      assert step.tx in s'.txns && id in s'.txns[step.tx].items;
    }
    if Held(s', id) {
      var t :| t in s'.txns && id in s'.txns[t].items;
      assert t in s.txns;
    }
  }

  /** What the steps of such a run do to a row. */
  lemma RowChanges(s: State, step: Step, id: EventId)
    requires Inv(s) && Quiet(s) && Enabled(s, step) && FifoStep(s, step) && id in s.events
    ensures id in Apply(s, step).events
    ensures var old_, new_ := s.events[id].status, Apply(s, step).events[id].status;
            (step.Tick? && old_.New? && new_ == if Due(s, id) then Scheduled else New)
            || (step.Commit? && Held(s, id) && (new_.Done? || new_.Missing?))
            || (old_ == new_ && !(step.Commit? && Held(s, id)) && !(step.Tick? && old_.New?))
  {
    EventsAfter(s, step);
    if step.Tick? {
      assert s.rules == {};
    } else if step.Commit? {
      var txn := s.txns[step.tx];
      assert TxnOk(s, txn) && QuietTxn(txn) && AllPutBack(txn);
      assert Held(s, id) <==> id in txn.items;
    }
  }

  lemma RowStaysDelivered(s: State, step: Step, n: nat, id: EventId)
    requires WorkerInv(s, n) && Enabled(s, step) && FifoStep(s, step)
    requires id < n || DeliveredId(s, step) == [id]
    ensures id in Apply(s, step).events
    ensures var status := Apply(s, step).events[id].status;
            !status.New? && (status.Scheduled? ==> Held(Apply(s, step), id))
  {
    if DeliveredId(s, step) == [id] { DequeuedIsFree(s, step.tx); }
    RowChanges(s, step, id);
    HeldAfter(s, step, id);
  }

  lemma RowStaysWaiting(s: State, step: Step, n: nat, id: EventId)
    requires WorkerInv(s, n) && Enabled(s, step) && FifoStep(s, step)
    requires id in Apply(s, step).events && id >= n && DeliveredId(s, step) != [id]
    ensures var status := Apply(s, step).events[id].status;
            (status.New? || status.Scheduled?) && !Held(Apply(s, step), id)
  {
    HeldAfter(s, step, id);
    RowsThere(s, step, id);
    if id in s.events { RowChanges(s, step, id); } else { NewIsNotHeld(s, id); }
  }

  lemma NewIsNotHeld(s: State, id: EventId)
    requires Inv(s) && id !in s.events
    ensures !Held(s, id)
  {
    forall t | t in s.txns ensures id !in s.txns[t].items { assert TxnOk(s, s.txns[t]); }
  }

  /** A step that delivers nothing, or event n, keeps everything but perhaps the order. */
  lemma StepKeepsWorkerInv(s: State, step: Step, n: nat)
    requires WorkerInv(s, n) && Enabled(s, step) && FifoStep(s, step)
    requires DeliveredId(s, step) == [] || DeliveredId(s, step) == [n]
    ensures WorkerInv(Apply(s, step), CountAfter(s, step, n))
  {
    var s', n' := Apply(s, step), CountAfter(s, step, n);
    StepKeepsInv(s, step);
    StepStaysQuiet(s, step);
    StepStaysNumbered(s, step);
    forall id: EventId | id < n'
      ensures id in s'.events && !s'.events[id].status.New? && (s'.events[id].status.Scheduled? ==> Held(s', id))
    {
      RowStaysDelivered(s, step, n, id);
    }
    forall id | id in s'.events && id >= n'
      ensures (s'.events[id].status.New? || s'.events[id].status.Scheduled?) && !Held(s', id)
    {
      RowStaysWaiting(s, step, n, id);
    }
  }

  lemma PendingBefore(s: State, step: Step, i: EventId)
    requires Inv(s) && Quiet(s) && Enabled(s, step) && FifoStep(s, step) && Pending(Apply(s, step), i)
    ensures i == s.nextId || (Pending(s, i) && (step.Tick? ==> LeftBehind(s, i)))
  {
    EmittedAfterStep(s, step, i);
    RowsThere(s, step, i);
    if i in s.events { RowChanges(s, step, i); }
  }

  lemma StepKeepsOrder(s: State, step: Step, n: nat)
    requires FifoInv(s, n) && Enabled(s, step) && FifoStep(s, step) && (step.Tick? ==> DueInOrder(s))
    ensures Ordered(Apply(s, step))
  {
    var s' := Apply(s, step);
    forall i: EventId, j: EventId | Pending(s', i) && j in s'.events && s'.events[j].status.Scheduled? ensures j < i {
      PendingBefore(s, step, i);
      RowsThere(s, step, j);
      RowChanges(s, step, j);
    }
  }

  lemma DeliversNextOrNothing(s: State, step: Step, n: nat)
    requires FifoInv(s, n) && Enabled(s, step) && FifoStep(s, step)
    ensures DeliveredId(s, step) == [] || DeliveredId(s, step) == [n]
  {
    if step.Dequeue? && Dequeued(s, step.tx).Some? { DequeueDeliversNext(s, step.tx, n); }
  }

  lemma StepKeepsFifo(s: State, step: Step, n: nat)
    requires FifoInv(s, n) && Enabled(s, step) && FifoStep(s, step) && (step.Tick? ==> DueInOrder(s))
    ensures FifoInv(Apply(s, step), CountAfter(s, step, n))
  {
    DeliversNextOrNothing(s, step, n);
    StepKeepsWorkerInv(s, step, n);
    StepKeepsOrder(s, step, n);
  }

  // ---- Runs

  lemma {:induction false} RunKeepsFifo(s: State, steps: seq<Step>, n: nat)
    requires FifoInv(s, n) && Legal(s, steps) && FifoRun(s, steps) && TicksInOrder(s, steps)
    ensures InOrder(n, DeliveredIds(s, steps))
    ensures FifoInv(Final(s, steps), n + |DeliveredIds(s, steps)|)
    decreases |steps|
  {
    if |steps| == 0 {
      assert DeliveredIds(s, steps) == [];
    } else {
      var s', n' := Apply(s, steps[0]), CountAfter(s, steps[0], n);
      DeliversNextOrNothing(s, steps[0], n);
      StepKeepsFifo(s, steps[0], n);
      RunKeepsFifo(s', steps[1..], n');
      InOrderConcat(n, DeliveredId(s, steps[0]), DeliveredIds(s', steps[1..]));
    }
  }

  /** If every tick is in order, then in every interleaving what the worker gets is a prefix of
      what was sent. */
  lemma DeliversInOrder(steps: seq<Step>)
    requires Legal(INITIAL, steps) && FifoRun(INITIAL, steps) && TicksInOrder(INITIAL, steps)
    ensures InOrder(0, DeliveredIds(INITIAL, steps))
    ensures Delivered(INITIAL, steps) <= Sent(INITIAL, steps)
  {
    var sent, got := Sent(INITIAL, steps), Delivered(INITIAL, steps);
    RunKeepsFifo(INITIAL, steps, 0);
    DeliveredCarry(INITIAL, steps, []);
    assert [] + sent == sent;
    ContentsInOrder(got, DeliveredIds(INITIAL, steps), sent);
  }

  lemma ContentsInOrder(got: seq<Work>, ids: seq<EventId>, sent: seq<Work>)
    requires Carry(got, ids, sent) && InOrder(0, ids)
    ensures got <= sent
  {
    if |ids| > 0 { assert ids[|ids| - 1] < |sent|; }
  }

  // ---- Without emits every tick is in order

  predicate EmitFree(steps: seq<Step>) {
    forall i :: 0 <= i < |steps| ==> !steps[i].Emit?
  }

  ghost predicate NoneEmitted(s: State) {
    forall t :: t in s.txns ==> s.txns[t].emitted == map[]
  }

  /** New events are due in the order in which they were sent. */
  ghost predicate Timed(s: State) {
    && (forall id :: id in s.events ==> s.events[id].enqueuedAt <= s.now)
    && (forall id :: id in s.events && s.events[id].status.New? ==> s.events[id].delayUntil == s.events[id].enqueuedAt)
    && (forall i, j :: i in s.events && j in s.events && i < j ==> s.events[i].enqueuedAt <= s.events[j].enqueuedAt)
  }

  lemma RowStaysTimed(s: State, step: Step, id: EventId)
    requires Inv(s) && Quiet(s) && Timed(s) && NoneEmitted(s) && Enabled(s, step) && FifoStep(s, step)
    requires id in Apply(s, step).events
    ensures var e := Apply(s, step).events[id];
            e.enqueuedAt <= Apply(s, step).now && (e.status.New? ==> e.delayUntil == e.enqueuedAt)
            && e.enqueuedAt == if id in s.events then s.events[id].enqueuedAt else s.now
    ensures id !in s.events ==> id == s.nextId
  {
    EventsAfter(s, step);
    if step.Commit? { assert QuietTxn(s.txns[step.tx]) && TxnOk(s, s.txns[step.tx]); }
  }

  lemma StepStaysTimed(s: State, step: Step)
    requires Inv(s) && Quiet(s) && Timed(s) && NoneEmitted(s) && Enabled(s, step) && FifoStep(s, step)
    ensures Timed(Apply(s, step))
  {
    var s' := Apply(s, step);
    forall id | id in s'.events
      ensures s'.events[id].enqueuedAt <= s'.now
      ensures s'.events[id].status.New? ==> s'.events[id].delayUntil == s'.events[id].enqueuedAt
    {
      RowStaysTimed(s, step, id);
    }
    forall i, j | i in s'.events && j in s'.events && i < j ensures s'.events[i].enqueuedAt <= s'.events[j].enqueuedAt {
      RowStaysTimed(s, step, i);
      RowStaysTimed(s, step, j);
      assert j in s.events ==> j < s.nextId;
    }
  }

  lemma NoneEmittedAfter(s: State, step: Step)
    requires NoneEmitted(s) && Enabled(s, step) && !step.Emit?
    ensures NoneEmitted(Apply(s, step))
  {}

  lemma TimedTickIsInOrder(s: State)
    requires Timed(s) && NoneEmitted(s)
    ensures DueInOrder(s)
  {}

  lemma {:induction false} EmitFreeTicksInOrder(s: State, steps: seq<Step>)
    requires Inv(s) && Quiet(s) && Timed(s) && NoneEmitted(s)
    requires Legal(s, steps) && FifoRun(s, steps) && EmitFree(steps)
    ensures TicksInOrder(s, steps)
    decreases |steps|
  {
    if |steps| == 0 {
    } else {
      var step := steps[0];
      TimedTickIsInOrder(s);
      StepKeepsInv(s, step);
      StepStaysQuiet(s, step);
      StepStaysTimed(s, step);
      NoneEmittedAfter(s, step);
      EmitFreeTicksInOrder(Apply(s, step), steps[1..]);
    }
  }

  /** What clients send is delivered in order in every interleaving. */
  lemma EmitFreeDeliversInOrder(steps: seq<Step>)
    requires Legal(INITIAL, steps) && FifoRun(INITIAL, steps) && EmitFree(steps)
    ensures Delivered(INITIAL, steps) <= Sent(INITIAL, steps)
  {
    EmitFreeTicksInOrder(INITIAL, steps);
    DeliversInOrder(steps);
  }
}
