/** When a waiting event is scheduled: no sooner and no later than it is due, unless its worker
    is stopped (queue-scheduler/src/lib.rs; event_queue.ml, put_back and enqueue). */
module EventQueueDue {
  import opened Common
  import opened EventQueue
  import opened EventQueueRuns
  import opened EventQueueRules

  /** A rule stops the worker that the work is for; other work is never stopped. */
  predicate IsStopped(s: State, work: Work) {
    work.space == WORKER && HasStop(s, work.canvas, work.name)
  }

  /** A tick schedules a new event exactly when its time has passed and it is not stopped. */
  lemma TickSchedulesIff(s: State, id: EventId)
    requires Inv(s) && id in s.events && s.events[id].status.New?
    ensures id in Apply(s, Tick).events
    ensures Apply(s, Tick).events[id].status.Scheduled?
        <==> s.now > s.events[id].delayUntil && !IsStopped(s, s.events[id].work)
  {
    EventsAfter(s, Tick);
  }

  /** insert and delete change the one rule, and nothing else changes any. */
  lemma RulesChange(s: State, step: Step, r: Rule)
    requires Enabled(s, step)
    ensures r in Apply(s, step).rules <==>
              (r in s.rules && !(r.space == WORKER && step == RemoveRule(r.ruleType, r.canvas, r.handlerName)))
              || (r.space == WORKER && step == InsertRule(r.ruleType, r.canvas, r.handlerName))
  {}

  // ---- An event that waits

  /** No step of the run schedules the event. */
  predicate StaysNew(s: State, steps: seq<Step>, id: EventId)
    requires Legal(s, steps)
    decreases |steps|
  {
    id in s.events && s.events[id].status.New?
    && (|steps| > 0 ==> StaysNew(Apply(s, steps[0]), steps[1..], id))
  }

  lemma NewRowStays(s: State, step: Step, id: EventId)
    requires Inv(s) && Enabled(s, step) && id in s.events && s.events[id].status.New?
    requires id in Apply(s, step).events && Apply(s, step).events[id].status.New?
    ensures Apply(s, step).events[id] == s.events[id]
  {
    EventsAfter(s, step);
    if step.Commit? { assert TxnOk(s, s.txns[step.tx]); }
  }

  lemma {:induction false} WaitingRowStays(s: State, steps: seq<Step>, id: EventId)
    requires Inv(s) && Legal(s, steps) && StaysNew(s, steps, id)
    ensures id in Final(s, steps).events && Final(s, steps).events[id] == s.events[id] && Inv(Final(s, steps))
    decreases |steps|
  {
    if |steps| == 0 {
    } else {
      var s' := Apply(s, steps[0]);
      StepKeepsInv(s, steps[0]);
      WaitingRowStays(s', steps[1..], id);
      NewRowStays(s, steps[0], id);
    }
  }

  /** As long as it waits, a tick schedules it exactly from `due` on. */
  ghost predicate ScheduledFrom(s: State, steps: seq<Step>, id: EventId, due: Time)
    requires Legal(s, steps)
  {
    var s' := Final(s, steps);
    id in s'.events && id in Apply(s', Tick).events
    && (Apply(s', Tick).events[id].status.Scheduled? <==> s'.now > due && !IsStopped(s', s'.events[id].work))
  }

  lemma {:induction false} WaitingIsScheduled(s: State, steps: seq<Step>, id: EventId)
    requires Inv(s) && Legal(s, steps) && StaysNew(s, steps, id)
    ensures ScheduledFrom(s, steps, id, s.events[id].delayUntil)
  {
    WaitingRowStays(s, steps, id);
    TickSchedulesIff(Final(s, steps), id);
  }

  // ---- Put back for another try

  /** Put back with an error before the last retry, or as incomplete. */
  predicate TriedAgain(s: State, tx: TxnId, id: EventId)
    requires tx in s.txns && id in s.events
  {
    id in s.txns[tx].outcomes
    && (s.txns[tx].outcomes[id].AsIncomplete?
        || (s.txns[tx].outcomes[id].AsErr? && s.events[id].retries < MAX_RETRIES))
  }

  lemma PutBackIsNew(s: State, tx: TxnId, id: EventId)
    requires Inv(s) && tx in s.txns && id in s.events && TriedAgain(s, tx, id)
    ensures var s' := Apply(s, Commit(tx));
            id in s'.events && s'.events[id].status.New?
            && s'.events[id].delayUntil == s.txns[tx].start + 5 * 60 * 1000
            && s'.events[id].retries == s.events[id].retries + if s.txns[tx].outcomes[id].AsErr? then 1 else 0
  {
    assert TxnOk(s, s.txns[tx]);
    EventsAfter(s, Commit(tx));
  }

  /** The other half of the backoff: put back for another try the event is new, and from then
      on, whatever happens meanwhile, a tick schedules it exactly when more than five minutes
      have passed since the start of that transaction and its worker is not stopped. */
  lemma {:induction false} BackoffEnds(s: State, tx: TxnId, id: EventId, steps: seq<Step>)
    requires Inv(s) && tx in s.txns && id in s.events && TriedAgain(s, tx, id)
    requires Legal(Apply(s, Commit(tx)), steps) && StaysNew(Apply(s, Commit(tx)), steps, id)
    ensures ScheduledFrom(Apply(s, Commit(tx)), steps, id, s.txns[tx].start + 5 * 60 * 1000)
  {
    PutBackIsNew(s, tx, id);
    StepKeepsInv(s, Commit(tx));
    WaitingIsScheduled(Apply(s, Commit(tx)), steps, id);
  }

  // ---- Sent for the first time

  /** What a client sends is due at once, */
  lemma {:induction false} SentIsDue(s: State, work: Work, steps: seq<Step>)
    requires Inv(s) && Legal(Apply(s, Enqueue(work)), steps) && StaysNew(Apply(s, Enqueue(work)), steps, s.nextId)
    ensures ScheduledFrom(Apply(s, Enqueue(work)), steps, s.nextId, s.now)
  {
    EventsAfter(s, Enqueue(work));
    assert s.nextId !in s.events;
    StepKeepsInv(s, Enqueue(work));
    WaitingIsScheduled(Apply(s, Enqueue(work)), steps, s.nextId);
  }

  /** and what a worker emits has been due since its transaction began. */
  lemma {:induction false} EmittedIsDue(s: State, tx: TxnId, work: Work, steps: seq<Step>)
    requires Inv(s) && tx in s.txns
    requires Legal(Apply(Apply(s, Emit(tx, work)), Commit(tx)), steps)
    requires StaysNew(Apply(Apply(s, Emit(tx, work)), Commit(tx)), steps, s.nextId)
    ensures ScheduledFrom(Apply(Apply(s, Emit(tx, work)), Commit(tx)), steps, s.nextId, s.txns[tx].start)
  {
    var s1 := Apply(s, Emit(tx, work));
    StepKeepsInv(s, Emit(tx, work));
    EventsUntouched(s, Emit(tx, work));
    EventsAfter(s1, Commit(tx));
    assert s.nextId !in s1.events && s1.txns[tx].emitted[s.nextId] == NewEvent(work, s.txns[tx].start);
    StepKeepsInv(s1, Commit(tx));
    WaitingIsScheduled(Apply(s1, Commit(tx)), steps, s.nextId);
  }
}
