/** When an emitted event changes the order of delivery (event_queue.ml, queue-scheduler/src/lib.rs):
    exactly when a tick schedules an event while it leaves an older one behind. */
module EventQueueOvertaking {
  import opened Common
  import opened EventQueue
  import opened EventQueueRuns
  import opened EventQueueFifo
  import opened EventQueueWorker

  // ---- Runs of the worker alone

  predicate IsWorkerStep(step: Step) {
    step.Begin? || step.Dequeue? || step.PutBack? || step.Commit?
  }

  predicate WorkerOnly(steps: seq<Step>) {
    forall i :: 0 <= i < |steps| ==> IsWorkerStep(steps[i])
  }

  /** The worker, left alone, delivers something other than event n, n + 1, ... */
  ghost predicate Breaks(s: State, n: nat, steps: seq<Step>) {
    WorkerOnly(steps) && Legal(s, steps) && FifoRun(s, steps) && !InOrder(n, DeliveredIds(s, steps))
  }

  lemma BreaksLater(s: State, step: Step, steps: seq<Step>, n: nat)
    requires Enabled(s, step) && FifoStep(s, step) && IsWorkerStep(step)
    requires DeliveredId(s, step) == [] || DeliveredId(s, step) == [n]
    requires Breaks(Apply(s, step), CountAfter(s, step, n), steps)
    ensures Breaks(s, n, [step] + steps)
  {
    var s', all := Apply(s, step), [step] + steps;
    assert all[0] == step && all[1..] == steps;
    InOrderConcat(n, DeliveredId(s, step), DeliveredIds(s', steps));
  }

  lemma BreaksNow(s: State, tx: TxnId, n: nat)
    requires tx in s.txns && AllPutBack(s.txns[tx])
    requires Dequeued(s, tx).Some? && Dequeued(s, tx).value != n
    ensures Breaks(s, n, [Dequeue(tx)])
  {
    var steps, id := [Dequeue(tx)], Dequeued(s, tx).value;
    assert steps[1..] == [];
    assert DeliveredIds(s, steps) == [id];
    assert [id][0] != n + 0;
  }

  // ---- After a tick out of order

  /** Event `j` is scheduled and free while the older `i`, not delivered yet, is not scheduled. */
  ghost predicate Overtaken(s: State, n: nat, i: EventId, j: EventId) {
    && Inv(s) && Quiet(s) && n <= i < j
    && j in s.events && s.events[j].status.Scheduled? && !Held(s, j)
    && (i in s.events ==> s.events[i].status.New?)
  }

  lemma TurnLeavesOvertaken(s: State, step: Step, n: nat, i: EventId, j: EventId)
    requires Overtaken(s, n, i, j) && Enabled(s, step) && FifoStep(s, step) && (step.PutBack? || step.Commit?)
    ensures Overtaken(Apply(s, step), n, i, j)
  {
    StepKeepsInv(s, step);
    StepStaysQuiet(s, step);
    HeldAfter(s, step, j);
    RowChanges(s, step, j);
    RowsThere(s, step, i);
    if i in s.events {
      RowChanges(s, step, i);
      assert !Held(s, i) by {
        forall t | t in s.txns ensures i !in s.txns[t].items { assert TxnOk(s, s.txns[t]); }
      }
    }
  }

  lemma ProcessedKeepsInv(s: State, id: EventId)
    requires Inv(s) && 0 !in s.txns && Lowest(Unheld(s)) == Some(id)
    ensures Inv(Processed(s, id, AsOk))
  {
    StepKeepsInv(s, Begin(0));
    DequeueInFreshTxn(s, 0);
    StepKeepsInv(InTxn(s, 0, map[], map[]), Dequeue(0));
    DequeueLocks(s, 0, id);
    var items := map[id := s.events[id].retries];
    ProcessedInTxn(s, 0, id, AsOk);
    StepKeepsInv(InTxn(s, 0, items, map[]), PutBack(0, id, AsOk));
    StepKeepsInv(InTxn(s, 0, items, map[id := AsOk]), Commit(0));
  }

  lemma ProcessedLeavesOvertaken(s: State, n: nat, i: EventId, j: EventId)
    requires Overtaken(s, n, i, j) && s.txns == map[] && n < i && Lowest(Unheld(s)) == Some(n)
    ensures Overtaken(Processed(s, n, AsOk), n + 1, i, j)
  {
    ProcessedKeepsInv(s, n);
  }

  lemma EndOfTurnBreaksLater(s: State, n: nat, steps: seq<Step>)
    requires s.txns == map[] && n in s.events && Breaks(Processed(s, n, AsOk), n + 1, steps)
    ensures Breaks(InTxn(s, 0, map[n := s.events[n].retries], map[]), n + 1,
                   [PutBack(0, n, AsOk)] + ([Commit(0)] + steps))
  {
    var items := map[n := s.events[n].retries];
    var s2, s3 := InTxn(s, 0, items, map[]), InTxn(s, 0, items, map[n := AsOk]);
    ProcessedInTxn(s, 0, n, AsOk);
    assert AllPutBack(s3.txns[0]);
    BreaksLater(s3, Commit(0), steps, n + 1);
    BreaksLater(s2, PutBack(0, n, AsOk), [Commit(0)] + steps, n + 1);
  }

  /** One turn of the worker delivers event n and leaves the rest as it was. */
  lemma TurnBreaksLater(s: State, n: nat, steps: seq<Step>)
    requires s.txns == map[] && Lowest(Unheld(s)) == Some(n) && Breaks(Processed(s, n, AsOk), n + 1, steps)
    ensures Breaks(s, n, [Begin(0)] + ([Dequeue(0)] + ([PutBack(0, n, AsOk)] + ([Commit(0)] + steps))))
  {
    var rest := [PutBack(0, n, AsOk)] + ([Commit(0)] + steps);
    assert n in Unheld(s);
    EndOfTurnBreaksLater(s, n, steps);
    DequeueInFreshTxn(s, 0);
    DequeueLocks(s, 0, n);
    var s1 := InTxn(s, 0, map[], map[]);
    assert DeliveredId(s1, Dequeue(0)) == [n];
    BreaksLater(s1, Dequeue(0), rest, n);
    assert DeliveredId(s, Begin(0)) == [];
    BreaksLater(s, Begin(0), [Dequeue(0)] + rest, n);
  }

  lemma {:induction false} IdleWorkerBreaks(s: State, n: nat, i: EventId, j: EventId) returns (steps: seq<Step>)
    requires Overtaken(s, n, i, j) && s.txns == map[]
    ensures Breaks(s, n, steps)
    decreases i - n
  {
    assert j in Unheld(s);
    var id := Lowest(Unheld(s)).value;
    assert id in Unheld(s) && id != i;
    if id == n {
      ProcessedLeavesOvertaken(s, n, i, j);
      var rest := IdleWorkerBreaks(Processed(s, n, AsOk), n + 1, i, j);
      TurnBreaksLater(s, n, rest);
      steps := [Begin(0)] + ([Dequeue(0)] + ([PutBack(0, n, AsOk)] + ([Commit(0)] + rest)));
    } else {
      DequeueInFreshTxn(s, 0);
      BreaksNow(Apply(s, Begin(0)), 0, n);
      BreaksLater(s, Begin(0), [Dequeue(0)], n);
      steps := [Begin(0)] + [Dequeue(0)];
    }
  }

  function Unfinished(txn: Txn): set<EventId> {
    set id | id in txn.items && id !in txn.outcomes
  }

  lemma {:induction false} BusyWorkerBreaks(s: State, n: nat, i: EventId, j: EventId, t: TxnId)
    returns (steps: seq<Step>)
    requires Overtaken(s, n, i, j) && t in s.txns
    ensures Breaks(s, n, steps)
    decreases |Unfinished(s.txns[t])|
  {
    if Unfinished(s.txns[t]) == {} {
      assert AllPutBack(s.txns[t]) by {
        forall id | id in s.txns[t].items ensures id in s.txns[t].outcomes { assert id !in Unfinished(s.txns[t]); }
      }
      TurnLeavesOvertaken(s, Commit(t), n, i, j);
      var rest := IdleWorkerBreaks(Apply(s, Commit(t)), n, i, j);
      BreaksLater(s, Commit(t), rest, n);
      steps := [Commit(t)] + rest;
    } else {
      var id :| id in Unfinished(s.txns[t]);
      var step := PutBack(t, id, AsOk);
      var s' := Apply(s, step);
      assert Unfinished(s'.txns[t]) == Unfinished(s.txns[t]) - {id};
      TurnLeavesOvertaken(s, step, n, i, j);
      var rest := BusyWorkerBreaks(s', n, i, j, t);
      BreaksLater(s, step, rest, n);
      steps := [step] + rest;
    }
  }

  /** A tick out of order is enough: the worker, left alone after it, delivers out of order. */
  lemma BadTickBreaksOrder(s: State, n: nat) returns (steps: seq<Step>)
    requires FifoInv(s, n) && !DueInOrder(s)
    ensures Breaks(Apply(s, Tick), n, steps)
  {
    var i: EventId, j: EventId :| LeftBehind(s, i) && Due(s, j) && !(j < i);
    var s' := Apply(s, Tick);
    TickOvertakes(s, n, i, j);
    if t :| t in s'.txns {
      steps := BusyWorkerBreaks(s', n, i, j, t);
    } else {
      assert s'.txns == map[];
      steps := IdleWorkerBreaks(s', n, i, j);
    }
  }

  lemma TickOvertakes(s: State, n: nat, i: EventId, j: EventId)
    requires FifoInv(s, n) && LeftBehind(s, i) && Due(s, j) && i <= j
    ensures Overtaken(Apply(s, Tick), n, i, j)
  {
    StepKeepsInv(s, Tick);
    StepStaysQuiet(s, Tick);
    RowChanges(s, Tick, j);
    HeldAfter(s, Tick, j);
    RowsThere(s, Tick, i);
    if Emitted(s, i) {
      var t :| t in s.txns && i in s.txns[t].emitted;
      assert TxnOk(s, s.txns[t]);
    } else {
      RowChanges(s, Tick, i);
    }
  }

  // ---- The exact condition

  lemma {:induction false} FifoConcat(s: State, a: seq<Step>, b: seq<Step>)
    requires Legal(s, a) && Legal(Final(s, a), b) && Legal(s, a + b)
    ensures FifoRun(s, a + b) <==> FifoRun(s, a) && FifoRun(Final(s, a), b)
    decreases |a|
  {
    if |a| == 0 {
      assert a + b == b;
    } else {
      assert (a + b)[0] == a[0] && (a + b)[1..] == a[1..] + b;
      FifoConcat(Apply(s, a[0]), a[1..], b);
    }
  }

  lemma {:induction false} TicksConcat(s: State, a: seq<Step>, b: seq<Step>)
    requires Legal(s, a) && Legal(Final(s, a), b) && Legal(s, a + b)
    ensures TicksInOrder(s, a + b) <==> TicksInOrder(s, a) && TicksInOrder(Final(s, a), b)
    decreases |a|
  {
    if |a| == 0 {
      assert a + b == b;
    } else {
      assert (a + b)[0] == a[0] && (a + b)[1..] == a[1..] + b;
      TicksConcat(Apply(s, a[0]), a[1..], b);
    }
  }

  lemma Associative(a: seq<EventId>, b: seq<EventId>, c: seq<EventId>)
    ensures a + (b + c) == (a + b) + c
  {}

  lemma {:induction false} DeliveredConcat(s: State, a: seq<Step>, b: seq<Step>)
    requires Legal(s, a) && Legal(Final(s, a), b) && Legal(s, a + b)
    ensures DeliveredIds(s, a + b) == DeliveredIds(s, a) + DeliveredIds(Final(s, a), b)
    decreases |a|
  {
    if |a| == 0 {
      assert a + b == b;
    } else {
      assert (a + b)[0] == a[0] && (a + b)[1..] == a[1..] + b;
      DeliveredConcat(Apply(s, a[0]), a[1..], b);
      var s' := Apply(s, a[0]);
      Associative(DeliveredId(s, a[0]), DeliveredIds(s', a[1..]), DeliveredIds(Final(s', a[1..]), b));
    }
  }

  lemma {:induction false} WorkerHasNoTicks(s: State, steps: seq<Step>)
    requires WorkerOnly(steps) && Legal(s, steps)
    ensures TicksInOrder(s, steps)
    decreases |steps|
  {
    if |steps| == 0 {
    } else {
      assert IsWorkerStep(steps[0]);
      WorkerHasNoTicks(Apply(s, steps[0]), steps[1..]);
    }
  }

  lemma {:induction false} FirstBadTick(s: State, steps: seq<Step>) returns (m: nat)
    requires Legal(s, steps) && !TicksInOrder(s, steps)
    ensures m < |steps| && steps[m].Tick? && Legal(s, steps[..m]) && TicksInOrder(s, steps[..m])
    ensures !DueInOrder(Final(s, steps[..m]))
    decreases |steps|
  {
    if steps[0].Tick? && !DueInOrder(s) {
      m := 0;
    } else {
      var k := FirstBadTick(Apply(s, steps[0]), steps[1..]);
      m := k + 1;
      assert steps[..m][0] == steps[0] && steps[..m][1..] == steps[1..][..k];
    }
  }

  ghost predicate StaysInOrder(run: seq<Step>) {
    Legal(INITIAL, run) && FifoRun(INITIAL, run) ==> InOrder(0, DeliveredIds(INITIAL, run))
  }

  /** Wherever the run is stopped and the worker left alone, what was sent is delivered in order. */
  ghost predicate AlwaysInOrder(steps: seq<Step>) {
    forall k, rest :: 0 <= k <= |steps| && WorkerOnly(rest) ==> StaysInOrder(steps[..k] + rest)
  }

  lemma {:induction false} GoodTicksStayInOrder(steps: seq<Step>, k: nat, rest: seq<Step>)
    requires Legal(INITIAL, steps) && FifoRun(INITIAL, steps) && TicksInOrder(INITIAL, steps)
    requires k <= |steps| && WorkerOnly(rest)
    ensures StaysInOrder(steps[..k] + rest)
  {
    var run := steps[..k] + rest;
    if Legal(INITIAL, run) && FifoRun(INITIAL, run) {
      assert steps == steps[..k] + steps[k..];
      RunConcat(INITIAL, steps[..k], steps[k..]);
      TicksConcat(INITIAL, steps[..k], steps[k..]);
      RunConcat(INITIAL, steps[..k], rest);
      TicksConcat(INITIAL, steps[..k], rest);
      WorkerHasNoTicks(Final(INITIAL, steps[..k]), rest);
      RunKeepsFifo(INITIAL, run, 0);
    }
  }

  /** What precedes the first tick out of order. */
  lemma {:induction false} BeforeBadTick(steps: seq<Step>) returns (m: nat)
    requires Legal(INITIAL, steps) && FifoRun(INITIAL, steps) && !TicksInOrder(INITIAL, steps)
    ensures m < |steps| && steps[m].Tick? && Legal(INITIAL, steps[..m]) && FifoRun(INITIAL, steps[..m])
    ensures TicksInOrder(INITIAL, steps[..m]) && !DueInOrder(Final(INITIAL, steps[..m]))
  {
    m := FirstBadTick(INITIAL, steps);
    assert steps == steps[..m] + steps[m..];
    RunConcat(INITIAL, steps[..m], steps[m..]);
    FifoConcat(INITIAL, steps[..m], steps[m..]);
  }

  lemma {:induction false} BadTickIsFelt(steps: seq<Step>) returns (k: nat, rest: seq<Step>)
    requires Legal(INITIAL, steps) && FifoRun(INITIAL, steps) && !TicksInOrder(INITIAL, steps)
    ensures k <= |steps| && WorkerOnly(rest) && !StaysInOrder(steps[..k] + rest)
  {
    var m := BeforeBadTick(steps);
    var before := steps[..m];
    k := m + 1;
    rest := OrderBreaksAfter(before);
    assert steps[..k] + rest == before + ([Tick] + rest);
  }

  lemma {:induction false} OrderBreaksAfter(before: seq<Step>) returns (rest: seq<Step>)
    requires Legal(INITIAL, before) && FifoRun(INITIAL, before)
    requires TicksInOrder(INITIAL, before) && !DueInOrder(Final(INITIAL, before))
    ensures WorkerOnly(rest) && !StaysInOrder(before + ([Tick] + rest))
  {
    RunKeepsFifo(INITIAL, before, 0);
    rest := BadTickBreaksOrder(Final(INITIAL, before), |DeliveredIds(INITIAL, before)|);
    TickThenRest(before, rest);
  }

  lemma TickThenRest(before: seq<Step>, rest: seq<Step>)
    requires Legal(INITIAL, before) && FifoRun(INITIAL, before)
    requires Breaks(Apply(Final(INITIAL, before), Tick), |DeliveredIds(INITIAL, before)|, rest)
    ensures !StaysInOrder(before + ([Tick] + rest))
  {
    var s, tail := Final(INITIAL, before), [Tick] + rest;
    assert tail[0] == Tick && tail[1..] == rest;
    assert [] + DeliveredIds(Apply(s, Tick), rest) == DeliveredIds(Apply(s, Tick), rest);
    RunConcat(INITIAL, before, tail);
    FifoConcat(INITIAL, before, tail);
    DeliveredConcat(INITIAL, before, tail);
    InOrderConcat(0, DeliveredIds(INITIAL, before), DeliveredIds(s, tail));
  }

  /** Delivery is first in, first out wherever the run is stopped, exactly when every tick of it
      schedules only events older than all it leaves behind. */
  lemma InOrderIff(steps: seq<Step>)
    requires Legal(INITIAL, steps) && FifoRun(INITIAL, steps)
    ensures AlwaysInOrder(steps) <==> TicksInOrder(INITIAL, steps)
  {
    if TicksInOrder(INITIAL, steps) {
      forall k, rest | 0 <= k <= |steps| && WorkerOnly(rest) ensures StaysInOrder(steps[..k] + rest) {
        GoodTicksStayInOrder(steps, k, rest);
      }
    } else {
      var k, rest := BadTickIsFelt(steps);
    }
  }

  /** If no two events are alike, order of ids and order of contents are the same thing. */
  lemma ContentsShowOrder(steps: seq<Step>)
    requires Legal(INITIAL, steps)
    requires var sent := Sent(INITIAL, steps); forall i, j :: 0 <= i < j < |sent| ==> sent[i] != sent[j]
    ensures Delivered(INITIAL, steps) <= Sent(INITIAL, steps) <==> InOrder(0, DeliveredIds(INITIAL, steps))
  {
    var sent, got, ids := Sent(INITIAL, steps), Delivered(INITIAL, steps), DeliveredIds(INITIAL, steps);
    DeliveredCarry(INITIAL, steps, []);
    assert [] + sent == sent;
    if InOrder(0, ids) {
      ContentsInOrder(got, ids, sent);
    }
    if got <= sent {
      forall k | 0 <= k < |ids| ensures ids[k] == k { assert got[k] == sent[k] && got[k] == sent[ids[k]]; }
    }
  }

  // ---- The ways an order is broken

  /** The run does this from the state. */
  predicate Does(s: State, steps: seq<Step>, sent: seq<Work>, delivered: seq<Work>) {
    Legal(s, steps) && Sent(s, steps) == sent && Delivered(s, steps) == delivered
  }

  lemma Before(s: State, step: Step, s': State, steps: seq<Step>, sent: seq<Work>, delivered: seq<Work>)
    requires Enabled(s, step) && Apply(s, step) == s' && Does(s', steps, sent, delivered)
    ensures Does(s, [step] + steps, LogAfter([], step) + sent, Delivery(s, step) + delivered)
  {
    assert ([step] + steps)[0] == step && ([step] + steps)[1..] == steps;
    assert [] + sent == sent;
    assert LogAfter([], step) + sent == Sent(s, [step] + steps);
  }

  function OvertakenRun(a: Work, b: Work): seq<Step> {
    [Begin(0)] + ([Emit(0, a)] + SentMeanwhile(b))
  }

  function SentMeanwhile(b: Work): seq<Step> {
    [Advance(1)] + ([Enqueue(b)] + ([Advance(1)] + ([Tick] + ([Commit(0)] + NextWorker()))))
  }

  function NextWorker(): seq<Step> {
    [Begin(1)] + ([Dequeue(1)] + [])
  }

  function EmptyTxn(start: Time): Txn {
    Txn(start, map[], map[], map[])
  }

  function AfterEmit(a: Work): State {
    State(0, 1, map[], {}, map[0 := EmptyTxn(0).(emitted := map[0 := NewEvent(a, 0)])])
  }

  function AfterCommit(a: Work, b: Work): State {
    State(2, 2, map[0 := NewEvent(a, 0), 1 := NewEvent(b, 1).(status := Scheduled)], {}, map[])
  }

  lemma NextWorkerTakesLater(a: Work, b: Work)
    ensures Does(AfterCommit(a, b), NextWorker(), [], [b])
  {
    var s := AfterCommit(a, b);
    var s' := s.(txns := map[1 := EmptyTxn(2)]);
    assert Apply(s, Begin(1)) == s';
    assert Candidates(s', 1) == {1};
    assert Dequeued(s', 1) == Some(1);
    Before(s', Dequeue(1), Apply(s', Dequeue(1)), [], [], []);
    Before(s, Begin(1), s', [Dequeue(1)] + [], [], [b]);
  }

  function BeforeTick(a: Work, b: Work): State {
    AfterEmit(a).(now := 2, nextId := 2, events := map[1 := NewEvent(b, 1)])
  }

  lemma TickAndCommit(a: Work, b: Work)
    ensures Does(BeforeTick(a, b), [Tick] + ([Commit(0)] + NextWorker()), [], [b])
  {
    var s5, s7 := BeforeTick(a, b), AfterCommit(a, b);
    var s6 := s5.(events := map[1 := NewEvent(b, 1).(status := Scheduled)]);
    assert Apply(s5, Tick) == s6;
    assert Apply(s6, Commit(0)) == s7;
    NextWorkerTakesLater(a, b);
    Before(s6, Commit(0), s7, NextWorker(), [], [b]);
    Before(s5, Tick, s6, [Commit(0)] + NextWorker(), [], [b]);
  }

  lemma CommitShowsEmit(a: Work, b: Work)
    ensures Does(AfterEmit(a), SentMeanwhile(b), [b], [b])
  {
    var s2, s5 := AfterEmit(a), BeforeTick(a, b);
    var s3 := s2.(now := 1);
    var s4 := s3.(nextId := 2, events := map[1 := NewEvent(b, 1)]);
    var rest := [Tick] + ([Commit(0)] + NextWorker());
    assert Apply(s2, Advance(1)) == s3;
    assert Apply(s3, Enqueue(b)) == s4;
    assert Apply(s4, Advance(1)) == s5;
    TickAndCommit(a, b);
    Before(s4, Advance(1), s5, rest, [], [b]);
    Before(s3, Enqueue(b), s4, [Advance(1)] + rest, [], [b]);
    Before(s2, Advance(1), s3, [Enqueue(b)] + ([Advance(1)] + rest), [b], [b]);
  }

  /** A worker's emit takes its id at once and shows up at commit: an event sent later can be
      scheduled and delivered before it. */
  lemma EmitCanBeOvertaken(a: Work, b: Work)
    ensures Does(INITIAL, OvertakenRun(a, b), [a, b], [b])
  {
    var s1 := INITIAL.(txns := map[0 := EmptyTxn(0)]);
    assert Apply(INITIAL, Begin(0)) == s1;
    assert Apply(s1, Emit(0, a)) == AfterEmit(a);
    CommitShowsEmit(a, b);
    Before(s1, Emit(0, a), AfterEmit(a), SentMeanwhile(b), [b], [b]);
    Before(INITIAL, Begin(0), s1, [Emit(0, a)] + SentMeanwhile(b), [a, b], [b]);
  }

  function OvertakingRun(a: Work, b: Work): seq<Step> {
    [Begin(0)] + ([Advance(1)] + ([Enqueue(a)] + CommittedAtOnce(b)))
  }

  function CommittedAtOnce(b: Work): seq<Step> {
    [Emit(0, b)] + ([Commit(0)] + ([Tick] + NextWorker()))
  }

  function SentFirst(a: Work): State {
    State(1, 1, map[0 := NewEvent(a, 1)], {}, map[0 := EmptyTxn(0)])
  }

  function EmitCommitted(a: Work, b: Work): State {
    State(1, 2, map[0 := NewEvent(a, 1), 1 := NewEvent(b, 0)], {}, map[])
  }

  lemma TickTakesEmit(a: Work, b: Work)
    ensures Does(EmitCommitted(a, b), [Tick] + NextWorker(), [], [b])
  {
    var s5 := EmitCommitted(a, b);
    assert Apply(s5, Tick) == EmitScheduled(a, b);
    NextWorkerTakesEmit(a, b);
    Before(s5, Tick, EmitScheduled(a, b), NextWorker(), [], [b]);
  }

  function EmitScheduled(a: Work, b: Work): State {
    EmitCommitted(a, b).(events := map[0 := NewEvent(a, 1), 1 := NewEvent(b, 0).(status := Scheduled)])
  }

  lemma NextWorkerTakesEmit(a: Work, b: Work)
    ensures Does(EmitScheduled(a, b), NextWorker(), [], [b])
  {
    var s6 := EmitScheduled(a, b);
    var s7 := s6.(txns := map[1 := EmptyTxn(1)]);
    assert Apply(s6, Begin(1)) == s7;
    assert Candidates(s7, 1) == {1};
    assert Dequeued(s7, 1) == Some(1);
    Before(s7, Dequeue(1), Apply(s7, Dequeue(1)), [], [], []);
    Before(s6, Begin(1), s7, [Dequeue(1)] + [], [], [b]);
  }

  lemma EmitIsCommitted(a: Work, b: Work)
    ensures Does(SentFirst(a), CommittedAtOnce(b), [b], [b])
  {
    var s3, s5 := SentFirst(a), EmitCommitted(a, b);
    var s4 := s3.(nextId := 2, txns := map[0 := EmptyTxn(0).(emitted := map[1 := NewEvent(b, 0)])]);
    assert Apply(s3, Emit(0, b)) == s4;
    assert Apply(s4, Commit(0)) == s5;
    TickTakesEmit(a, b);
    Before(s4, Commit(0), s5, [Tick] + NextWorker(), [], [b]);
    Before(s3, Emit(0, b), s4, [Commit(0)] + ([Tick] + NextWorker()), [], [b]);
  }

  /** A worker's emit is due from the start of its transaction: it can be scheduled and delivered
      before an event that was sent earlier. */
  lemma EmitCanOvertake(a: Work, b: Work)
    ensures Does(INITIAL, OvertakingRun(a, b), [a, b], [b])
  {
    var s1 := INITIAL.(txns := map[0 := EmptyTxn(0)]);
    var s2 := s1.(now := 1);
    assert Apply(INITIAL, Begin(0)) == s1;
    assert Apply(s1, Advance(1)) == s2;
    assert Apply(s2, Enqueue(a)) == SentFirst(a);
    EmitIsCommitted(a, b);
    Before(s2, Enqueue(a), SentFirst(a), CommittedAtOnce(b), [b], [b]);
    Before(s1, Advance(1), s2, [Enqueue(a)] + CommittedAtOnce(b), [a, b], [b]);
    Before(INITIAL, Begin(0), s1, [Advance(1)] + ([Enqueue(a)] + CommittedAtOnce(b)), [a, b], [b]);
  }

  function CrashRun(a: Work): seq<Step> {
    [Enqueue(a)] + ([Advance(1)] + ([Tick] + Crash()))
  }

  function Crash(): seq<Step> {
    [Begin(0)] + ([Dequeue(0)] + ([Rollback(0)] + NextWorker()))
  }

  function OneScheduled(a: Work): State {
    State(1, 1, map[0 := NewEvent(a, 0).(status := Scheduled)], {}, map[])
  }

  lemma DeliveredOnce(a: Work, tx: TxnId)
    ensures Apply(OneScheduled(a), Begin(tx)) == OneScheduled(a).(txns := map[tx := EmptyTxn(1)])
    ensures Dequeued(OneScheduled(a).(txns := map[tx := EmptyTxn(1)]), tx) == Some(0)
  {
    assert Candidates(OneScheduled(a).(txns := map[tx := EmptyTxn(1)]), tx) == {0};
  }

  lemma NextWorkerTakesIt(a: Work)
    ensures Does(OneScheduled(a), NextWorker(), [], [a])
  {
    var s' := OneScheduled(a).(txns := map[1 := EmptyTxn(1)]);
    DeliveredOnce(a, 1);
    Before(s', Dequeue(1), Apply(s', Dequeue(1)), [], [], []);
    Before(OneScheduled(a), Begin(1), s', [Dequeue(1)] + [], [], [a]);
  }

  lemma CrashFreesEvent(a: Work)
    ensures Does(OneScheduled(a), Crash(), [], [a, a])
  {
    var s3 := OneScheduled(a);
    var s4 := s3.(txns := map[0 := EmptyTxn(1)]);
    var s5 := s3.(txns := map[0 := EmptyTxn(1).(items := map[0 := 0])]);
    DeliveredOnce(a, 0);
    assert Apply(s4, Dequeue(0)) == s5;
    assert Apply(s5, Rollback(0)) == s3;
    NextWorkerTakesIt(a);
    Before(s5, Rollback(0), s3, NextWorker(), [], [a]);
    Before(s4, Dequeue(0), s5, [Rollback(0)] + NextWorker(), [], [a]);
    Before(s3, Begin(0), s4, [Dequeue(0)] + ([Rollback(0)] + NextWorker()), [], [a, a]);
  }

  /** A worker that dies with an event in hand has it delivered twice. */
  lemma CrashRedelivers(a: Work)
    ensures Does(INITIAL, CrashRun(a), [a], [a, a])
  {
    var s1 := INITIAL.(nextId := 1, events := map[0 := NewEvent(a, 0)]);
    var s2 := s1.(now := 1);
    var s3 := OneScheduled(a);
    assert Apply(INITIAL, Enqueue(a)) == s1;
    assert Apply(s1, Advance(1)) == s2;
    assert Apply(s2, Tick) == s3;
    CrashFreesEvent(a);
    Before(s2, Tick, s3, Crash(), [], [a, a]);
    Before(s1, Advance(1), s2, [Tick] + Crash(), [], [a, a]);
    Before(INITIAL, Enqueue(a), s1, [Advance(1)] + ([Tick] + Crash()), [], [a, a]);
  }
}
