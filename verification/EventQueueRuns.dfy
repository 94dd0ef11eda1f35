/** What every run of the event queue keeps: events are conserved, leases exclusive, retries
    bounded and backed off. */
module EventQueueRuns {
  import opened Common
  import opened EventQueue

  // ---- Conservation

  predicate SameEvent(e: Event, e': Event) {
    e'.work == e.work && e'.enqueuedAt == e.enqueuedAt
  }

  lemma StepConserves(s: State, step: Step, id: EventId)
    requires Inv(s) && Enabled(s, step) && id in s.events
    ensures id in Apply(s, step).events && SameEvent(s.events[id], Apply(s, step).events[id])
  {
    EventsAfter(s, step);
  }

  /** The events inserted by a run, in the order of their ids. */
  function Sent(s: State, steps: seq<Step>): seq<Work>
    requires Legal(s, steps)
    decreases |steps|
  {
    if |steps| == 0 then []
    else
      var rest := Sent(Apply(s, steps[0]), steps[1..]);
      if steps[0].Enqueue? || steps[0].Emit? then [steps[0].work] + rest else rest
  }

  /** `log[id]` is what event `id` was sent with. */
  ghost predicate Recorded(s: State, log: seq<Work>) {
    && |log| == s.nextId
    && AllRecorded(s.events, log)
    && forall t :: t in s.txns ==> AllRecorded(s.txns[t].emitted, log)
  }

  ghost predicate AllRecorded(rows: map<EventId, Event>, log: seq<Work>) {
    forall id :: id in rows ==> id < |log| && rows[id].work == log[id]
  }

  function LogAfter(log: seq<Work>, step: Step): seq<Work> {
    if step.Enqueue? || step.Emit? then log + [step.work] else log
  }

  lemma RowsStayRecorded(s: State, step: Step, log: seq<Work>, id: EventId)
    requires Inv(s) && Enabled(s, step) && Recorded(s, log) && id in Apply(s, step).events
    ensures id < |LogAfter(log, step)| && Apply(s, step).events[id].work == LogAfter(log, step)[id]
  {
    if id in s.events {
      StepConserves(s, step, id);
    } else {
      EventsAfter(s, step);
      NewRowIsRecorded(s, step, log, id);
    }
  }

  lemma NewRowIsRecorded(s: State, step: Step, log: seq<Work>, id: EventId)
    requires Enabled(s, step) && Recorded(s, log) && id in NewRows(s, step)
    ensures id < |LogAfter(log, step)| && NewRows(s, step)[id].work == LogAfter(log, step)[id]
  {
    if step.Commit? { assert AllRecorded(s.txns[step.tx].emitted, log); }
  }

  lemma InsertsStayRecorded(s: State, step: Step, log: seq<Work>, t: TxnId)
    requires Enabled(s, step) && Recorded(s, log) && t in TxnsAfter(s, step)
    ensures AllRecorded(TxnsAfter(s, step)[t].emitted, LogAfter(log, step))
  {
    if t in s.txns { assert AllRecorded(s.txns[t].emitted, log); }
  }

  lemma StepKeepsRecord(s: State, step: Step, log: seq<Work>)
    requires Inv(s) && Enabled(s, step) && Recorded(s, log)
    ensures Recorded(Apply(s, step), LogAfter(log, step))
  {
    var s' := Apply(s, step);
    forall id | id in s'.events ensures id < |LogAfter(log, step)| && s'.events[id].work == LogAfter(log, step)[id] {
      RowsStayRecorded(s, step, log, id);
    }
    forall t | t in s'.txns ensures AllRecorded(s'.txns[t].emitted, LogAfter(log, step)) {
      InsertsStayRecorded(s, step, log, t);
    }
  }

  lemma {:induction false} RunKeepsRecord(s: State, steps: seq<Step>, log: seq<Work>)
    requires Inv(s) && Legal(s, steps) && Recorded(s, log)
    ensures Recorded(Final(s, steps), log + Sent(s, steps))
    decreases |steps|
  {
    if |steps| == 0 {
      assert log + [] == log;
    } else {
      var s', log' := Apply(s, steps[0]), LogAfter(log, steps[0]);
      StepKeepsInv(s, steps[0]);
      StepKeepsRecord(s, steps[0], log);
      RunKeepsRecord(s', steps[1..], log');
      assert log + Sent(s, steps) == log' + Sent(s', steps[1..]);
    }
  }

  /** No event is invented or altered: at the end of any run, event `id` carries what the
      id-th insert gave it. */
  lemma EventsAreAsSent(steps: seq<Step>, id: EventId)
    requires Legal(INITIAL, steps) && id in Final(INITIAL, steps).events
    ensures id < |Sent(INITIAL, steps)| && Final(INITIAL, steps).events[id].work == Sent(INITIAL, steps)[id]
  {
    RunKeepsRecord(INITIAL, steps, []);
    assert [] + Sent(INITIAL, steps) == Sent(INITIAL, steps);
  }

  /** No event is lost. */
  lemma {:induction false} EventsAreConserved(s: State, steps: seq<Step>, id: EventId)
    requires Inv(s) && Legal(s, steps) && id in s.events
    ensures id in Final(s, steps).events && SameEvent(s.events[id], Final(s, steps).events[id])
    decreases |steps|
  {
    if |steps| == 0 {
    } else {
      StepConserves(s, steps[0], id);
      StepKeepsInv(s, steps[0]);
      EventsAreConserved(Apply(s, steps[0]), steps[1..], id);
    }
  }

  // ---- Leases

  /** Scheduled, held by no other transaction and not yet put back by this one. */
  predicate Free(s: State, tx: TxnId, id: EventId)
    requires tx in s.txns
  {
    id in s.events && s.events[id].status.Scheduled? && id !in s.txns[tx].outcomes && !HeldByOther(s, tx, id)
  }

  lemma FreeIsCandidate(s: State, tx: TxnId, id: EventId)
    requires Inv(s) && tx in s.txns
    ensures id in Candidates(s, tx) <==> Free(s, tx, id)
  {
    assert TxnOk(s, s.txns[tx]);
  }

  /** A dequeue takes the lowest free event, if any, and locks it. */
  lemma DequeueTakesLowestFree(s: State, tx: TxnId, id: EventId)
    requires Inv(s) && tx in s.txns
    ensures Dequeued(s, tx) == Some(id) <==> Free(s, tx, id) && forall i: EventId :: i < id ==> !Free(s, tx, i)
    ensures Dequeued(s, tx) == Some(id) ==>
              id in Apply(s, Dequeue(tx)).txns[tx].items
              && forall t :: t in s.txns && t != tx ==> id !in Apply(s, Dequeue(tx)).txns[t].items
  {
    forall i: EventId ensures i in Candidates(s, tx) <==> Free(s, tx, i) { FreeIsCandidate(s, tx, i); }
    if Free(s, tx, id) && forall i: EventId :: i < id ==> !Free(s, tx, i) {
      assert id in Candidates(s, tx);
      var low := Dequeued(s, tx).value;
      assert low in Candidates(s, tx) && low <= id;
      assert Free(s, tx, low);
    }
    if Dequeued(s, tx) == Some(id) {
      assert Free(s, tx, id);
      forall i: EventId | i < id ensures !Free(s, tx, i) { assert i !in Candidates(s, tx); }
    }
  }

  /** In every run, whatever the workers do, no event is leased twice at a time. */
  lemma LeasesAreExclusive(steps: seq<Step>, t: TxnId, u: TxnId, id: EventId)
    requires Legal(INITIAL, steps)
    requires t in Final(INITIAL, steps).txns && u in Final(INITIAL, steps).txns
    requires id in Final(INITIAL, steps).txns[t].items && id in Final(INITIAL, steps).txns[u].items
    ensures t == u
  {
    RunKeepsInv(INITIAL, steps);
    assert ExclusiveLeases(Final(INITIAL, steps));
  }

  /** A worker that dies gives its events back unchanged. */
  lemma RollbackGivesBack(s: State, tx: TxnId, other: TxnId, id: EventId)
    requires Inv(s) && tx in s.txns && other in s.txns && other != tx && id in s.txns[tx].items
    ensures !Free(s, other, id)
    ensures Apply(s, Rollback(tx)).events == s.events && Free(Apply(s, Rollback(tx)), other, id)
  {
    var s' := Apply(s, Rollback(tx));
    assert HeldByOther(s, other, id);
    EventsUntouched(s, Rollback(tx));
    HeldRowIsOthers(s, tx, other, id);
    forall t | t in s'.txns && t != other ensures id !in s'.txns[t].items {
      assert t in s.txns && t != tx;
    }
  }

  lemma HeldRowIsOthers(s: State, tx: TxnId, other: TxnId, id: EventId)
    requires Inv(s) && tx in s.txns && other in s.txns && other != tx && id in s.txns[tx].items
    ensures id in s.events && s.events[id].status.Scheduled? && id !in s.txns[other].outcomes
    ensures forall t :: t in s.txns && t != tx ==> id !in s.txns[t].items
  {
    assert TxnOk(s, s.txns[tx]) && TxnOk(s, s.txns[other]);
  }

  // ---- Statuses

  predicate Settled(e: Event) {
    e.status.Done? || e.status.Missing? || e.status.Error?
  }

  /** The only ways a status can change. */
  lemma StatusChanges(s: State, step: Step, id: EventId)
    requires Inv(s) && Enabled(s, step) && id in s.events
    ensures id in Apply(s, step).events
    ensures var old_, new_ := s.events[id].status, Apply(s, step).events[id].status;
            old_ == new_
            || (step.Tick? && old_.New? && new_.Scheduled?)
            || (step.Unschedule? && old_.Scheduled? && new_.New? && !Held(s, id))
            || (step.Commit? && old_.Scheduled? && id in s.txns[step.tx].outcomes
                && (new_.Done? <==> s.txns[step.tx].outcomes[id].AsOk?)
                && (new_.Missing? <==> s.txns[step.tx].outcomes[id].AsMissing?)
                && (new_.Error? <==> s.txns[step.tx].outcomes[id].AsErr? && s.events[id].retries == MAX_RETRIES))
  {
    EventsAfter(s, step);
    if step.Commit? { assert TxnOk(s, s.txns[step.tx]); }
  }

  /** last_processed_at is the start of the transaction that last put the event back. */
  lemma ProcessedAtChanges(s: State, step: Step, id: EventId)
    requires Inv(s) && Enabled(s, step) && id in s.events
    ensures id in Apply(s, step).events
    ensures Apply(s, step).events[id].lastProcessedAt
         == if step.Commit? && id in s.txns[step.tx].outcomes then Some(s.txns[step.tx].start)
            else s.events[id].lastProcessedAt
  {
    EventsAfter(s, step);
    if step.Commit? { assert TxnOk(s, s.txns[step.tx]); }
  }

  lemma SettledRowStays(s: State, step: Step, id: EventId)
    requires Inv(s) && Enabled(s, step) && id in s.events && Settled(s.events[id])
    ensures id in Apply(s, step).events && Apply(s, step).events[id] == s.events[id]
  {
    EventsAfter(s, step);
    if step.Commit? { assert TxnOk(s, s.txns[step.tx]); }
  }

  /** Done, missing and error are final: no run touches the row again. */
  lemma {:induction false} SettledForGood(s: State, steps: seq<Step>, id: EventId)
    requires Inv(s) && Legal(s, steps) && id in s.events && Settled(s.events[id])
    ensures id in Final(s, steps).events && Final(s, steps).events[id] == s.events[id]
    decreases |steps|
  {
    if |steps| == 0 {
    } else {
      SettledRowStays(s, steps[0], id);
      StepKeepsInv(s, steps[0]);
      SettledForGood(Apply(s, steps[0]), steps[1..], id);
    }
  }

  // ---- Retries

  predicate CommitsErr(s: State, step: Step, id: EventId)
    requires Enabled(s, step)
  {
    step.Commit? && id in s.txns[step.tx].outcomes && s.txns[step.tx].outcomes[id].AsErr?
  }

  /** How often a run puts the event back with Err. */
  function ErrCount(s: State, steps: seq<Step>, id: EventId): nat
    requires Legal(s, steps)
    decreases |steps|
  {
    if |steps| == 0 then 0
    else (if CommitsErr(s, steps[0], id) then 1 else 0) + ErrCount(Apply(s, steps[0]), steps[1..], id)
  }

  /** The number of errors that a row shows. */
  function ErrsShown(s: State, id: EventId): int {
    if id !in s.events then 0
    else if s.events[id].status.Error? then s.events[id].retries + 1
    else s.events[id].retries
  }

  lemma StepCountsErr(s: State, step: Step, id: EventId)
    requires Inv(s) && Enabled(s, step)
    ensures ErrsShown(Apply(s, step), id) == ErrsShown(s, id) + if CommitsErr(s, step, id) then 1 else 0
  {
    EventsAfter(s, step);
    if id in s.events {
      RowCountsErr(s, step, id);
    } else if step.Commit? {
      assert TxnOk(s, s.txns[step.tx]);
    }
  }

  lemma RowCountsErr(s: State, step: Step, id: EventId)
    requires Inv(s) && Enabled(s, step) && id in s.events
    ensures var e, e' := s.events[id], RowAfter(s, step, id);
            (if e'.status.Error? then e'.retries + 1 else e'.retries)
            == (if e.status.Error? then e.retries + 1 else e.retries) + (if CommitsErr(s, step, id) then 1 else 0)
  {
    assert RowOk(s.events[id]);
    if step.Commit? { assert TxnOk(s, s.txns[step.tx]); }
  }

  lemma {:induction false} RunCountsErrs(s: State, steps: seq<Step>, id: EventId)
    requires Inv(s) && Legal(s, steps)
    ensures ErrsShown(Final(s, steps), id) == ErrsShown(s, id) + ErrCount(s, steps, id)
    decreases |steps|
  {
    if |steps| == 0 {
    } else {
      StepCountsErr(s, steps[0], id);
      StepKeepsInv(s, steps[0]);
      RunCountsErrs(Apply(s, steps[0]), steps[1..], id);
    }
  }

  /** `retries` counts the errors up to two; the third, and no other thing, makes the status
      `error`, and there is no fourth. */
  lemma RetriesAreBounded(steps: seq<Step>, id: EventId)
    requires Legal(INITIAL, steps)
    ensures ErrCount(INITIAL, steps, id) <= MAX_RETRIES + 1
    ensures id in Final(INITIAL, steps).events ==>
              var e := Final(INITIAL, steps).events[id];
              (e.status.Error? <==> ErrCount(INITIAL, steps, id) == MAX_RETRIES + 1)
              && (!e.status.Error? ==> e.retries == ErrCount(INITIAL, steps, id))
  {
    RunCountsErrs(INITIAL, steps, id);
    RunKeepsInv(INITIAL, steps);
    assert RowsOk(Final(INITIAL, steps));
  }

  // ---- Backoff

  /** The event waits, or the deadline is past. */
  predicate Waits(s: State, id: EventId, deadline: Time) {
    id in s.events && (s.now > deadline || (s.events[id].status.New? && s.events[id].delayUntil >= deadline))
  }

  lemma StepKeepsWaiting(s: State, step: Step, id: EventId, deadline: Time)
    requires Inv(s) && Enabled(s, step) && Waits(s, id, deadline)
    ensures Waits(Apply(s, step), id, deadline)
  {
    EventsAfter(s, step);
    if step.Commit? { assert TxnOk(s, s.txns[step.tx]); }
  }

  lemma {:induction false} RunKeepsWaiting(s: State, steps: seq<Step>, id: EventId, deadline: Time)
    requires Inv(s) && Legal(s, steps) && Waits(s, id, deadline)
    ensures Waits(Final(s, steps), id, deadline)
    decreases |steps|
  {
    if |steps| == 0 {
    } else {
      StepKeepsWaiting(s, steps[0], id, deadline);
      StepKeepsInv(s, steps[0]);
      RunKeepsWaiting(Apply(s, steps[0]), steps[1..], id, deadline);
    }
  }

  /** An event put back with Err or Incomplete is dequeued again, by whichever worker, only
      more than five minutes after the start of the transaction that put it back. */
  lemma BackoffIsKept(s: State, tx: TxnId, id: EventId, steps: seq<Step>, worker: TxnId)
    requires Inv(s) && tx in s.txns && id in s.txns[tx].outcomes
    requires s.txns[tx].outcomes[id].AsErr? || s.txns[tx].outcomes[id].AsIncomplete?
    requires Legal(Apply(s, Commit(tx)), steps)
    requires var s' := Final(Apply(s, Commit(tx)), steps); worker in s'.txns && Dequeued(s', worker) == Some(id)
    ensures Final(Apply(s, Commit(tx)), steps).now > s.txns[tx].start + BACKOFF
  {
    var s1 := Apply(s, Commit(tx));
    var s2 := Final(s1, steps);
    var deadline := s.txns[tx].start + BACKOFF;
    StepKeepsInv(s, Commit(tx));
    RunKeepsInv(s1, steps);
    DequeuedIsFree(s2, worker);
    PutBackWaits(s, tx, id);
    if id in s1.events && Settled(s1.events[id]) {
      SettledForGood(s1, steps, id);
    } else {
      RunKeepsWaiting(s1, steps, id, deadline);
    }
  }

  lemma PutBackWaits(s: State, tx: TxnId, id: EventId)
    requires Inv(s) && tx in s.txns && id in s.txns[tx].outcomes
    requires s.txns[tx].outcomes[id].AsErr? || s.txns[tx].outcomes[id].AsIncomplete?
    ensures var s1 := Apply(s, Commit(tx));
            id in s1.events && (Settled(s1.events[id]) || Waits(s1, id, s.txns[tx].start + BACKOFF))
  {
    assert TxnOk(s, s.txns[tx]);
    EventsAfter(s, Commit(tx));
  }
}
