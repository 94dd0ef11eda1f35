/** The event queue as a state machine: the events and scheduling_rules tables, the open
    transactions of the workers, and the effect of each SQL statement (event_queue.ml,
    queue-scheduler/src/lib.rs). Every statement is one atomic step. */
module EventQueue {
  import opened Common

  type EventId = nat
  type TxnId = nat
  type CanvasId = nat
  /** In milliseconds. */
  type Time = int

  const MAX_RETRIES := 2
  const BACKOFF: Time := 5 * 60 * 1000
  const WORKER := "WORKER"

  datatype Status = New | Scheduled | Done | Missing | Error

  /** The columns an event is inserted with and keeps. */
  datatype Work = Work(canvas: CanvasId, account: nat, space: string, name: string, modifier: string, value: string)

  datatype Event = Event(
    work: Work, status: Status, retries: int, delayUntil: Time, enqueuedAt: Time, lastProcessedAt: Option<Time>)

  datatype RuleType = Block | Pause

  datatype Rule = Rule(ruleType: RuleType, canvas: CanvasId, handlerName: string, space: string)

  datatype Outcome = AsOk | AsMissing | AsErr | AsIncomplete

  /** An open transaction: the rows it locked, with the retries it read; what it put back; the
      rows it inserted. Other transactions see its writes once it commits. */
  datatype Txn = Txn(
    start: Time, items: map<EventId, int>, outcomes: map<EventId, Outcome>, emitted: map<EventId, Event>)

  datatype State = State(
    now: Time, nextId: EventId, events: map<EventId, Event>, rules: set<Rule>, txns: map<TxnId, Txn>)

  datatype Step =
    | Advance(ms: nat)
    | Enqueue(work: Work)
    | Tick
    | Begin(tx: TxnId)
    | Dequeue(tx: TxnId)
    | PutBack(tx: TxnId, id: EventId, outcome: Outcome)
    | Emit(tx: TxnId, work: Work)
    | Commit(tx: TxnId)
    | Rollback(tx: TxnId)
    | InsertRule(ruleType: RuleType, canvas: CanvasId, name: string)
    | Unschedule(canvas: CanvasId, name: string)
    | RemoveRule(ruleType: RuleType, canvas: CanvasId, name: string)

  // ---- Rows

  function NewEvent(work: Work, now: Time): Event {
    Event(work, New, 0, now, now, None)
  }

  predicate HasRule(rules: set<Rule>, t: RuleType, work: Work) {
    Rule(t, work.canvas, work.name, work.space) in rules
  }

  predicate Stopped(rules: set<Rule>, work: Work) {
    HasRule(rules, Block, work) || HasRule(rules, Pause, work)
  }

  function TickRow(rules: set<Rule>, now: Time, e: Event): Event {
    if !Stopped(rules, e.work) && e.status.New? && e.delayUntil < now then e.(status := Scheduled) else e
  }

  predicate IsFor(work: Work, canvas: CanvasId, name: string) {
    work.space == WORKER && work.canvas == canvas && work.name == name
  }

  function UnscheduleRow(canvas: CanvasId, name: string, e: Event): Event {
    if IsFor(e.work, canvas, name) && e.status.Scheduled? then e.(status := New) else e
  }

  /** put_back: `retries` is what the transaction read, `now` the start of the transaction. */
  function PutBackRow(e: Event, outcome: Outcome, retries: int, now: Time): Event {
    match outcome
    case AsOk => e.(status := Done, lastProcessedAt := Some(now))
    case AsMissing => e.(status := Missing, lastProcessedAt := Some(now))
    case AsErr =>
      if retries < MAX_RETRIES
      then e.(status := New, retries := retries + 1, delayUntil := now + BACKOFF, lastProcessedAt := Some(now))
      else e.(status := Error, lastProcessedAt := Some(now))
    case AsIncomplete => e.(status := New, delayUntil := now + BACKOFF, lastProcessedAt := Some(now))
  }

  /** A committed row as the transaction itself sees it. */
  function View(txn: Txn, id: EventId, e: Event): Event {
    if id in txn.outcomes && id in txn.items then PutBackRow(e, txn.outcomes[id], txn.items[id], txn.start) else e
  }

  // ---- Steps

  predicate HeldByOther(s: State, tx: TxnId, id: EventId) {
    exists t :: t in s.txns && t != tx && id in s.txns[t].items
  }

  predicate Held(s: State, id: EventId) {
    exists t :: t in s.txns && id in s.txns[t].items
  }

  /** What dequeue's SELECT ... FOR UPDATE SKIP LOCKED can return. */
  function Candidates(s: State, tx: TxnId): set<EventId>
    requires tx in s.txns
  {
    set id | id in s.events && View(s.txns[tx], id, s.events[id]).status.Scheduled? && !HeldByOther(s, tx, id)
  }

  /** ORDER BY id ASC LIMIT 1 */
  function Lowest(ids: set<EventId>): (r: Option<EventId>)
    ensures r.None? <==> ids == {}
    ensures r.Some? ==> IsLowest(r.value, ids)
  {
    if ids == {} then None
    else
      HasLowest(ids);
      var x :| x in ids && IsLowest(x, ids);
      Some(x)
  }

  function Dequeued(s: State, tx: TxnId): Option<EventId>
    requires tx in s.txns
  {
    Lowest(Candidates(s, tx))
  }

  /** A worker puts an item back once; unscheduling waits for the locks on its rows. */
  predicate Enabled(s: State, step: Step) {
    match step
    case Begin(tx) => tx !in s.txns
    case Dequeue(tx) => tx in s.txns
    case PutBack(tx, id, _) => tx in s.txns && id in s.txns[tx].items && id !in s.txns[tx].outcomes
    case Emit(tx, _) => tx in s.txns
    case Commit(tx) => tx in s.txns
    case Rollback(tx) => tx in s.txns
    case Unschedule(canvas, name) =>
      forall id :: id in s.events && s.events[id].status.Scheduled? && IsFor(s.events[id].work, canvas, name) ==>
        !Held(s, id)
    case _ => true
  }

  /** What the step makes of a committed row. */
  function RowAfter(s: State, step: Step, id: EventId): Event
    requires Enabled(s, step) && id in s.events
  {
    match step
    case Tick => TickRow(s.rules, s.now, s.events[id])
    case Commit(tx) => View(s.txns[tx], id, s.events[id])
    case Unschedule(canvas, name) => UnscheduleRow(canvas, name, s.events[id])
    case _ => s.events[id]
  }

  function RowsAfter(s: State, step: Step): map<EventId, Event>
    requires Enabled(s, step)
  {
    map id | id in s.events :: RowAfter(s, step, id)
  }

  function NewRows(s: State, step: Step): map<EventId, Event>
    requires Enabled(s, step)
  {
    match step
    case Enqueue(work) => map[s.nextId := NewEvent(work, s.now)]
    case Commit(tx) => s.txns[tx].emitted
    case _ => map[]
  }

  function TxnAfter(s: State, step: Step, txn: Txn): Txn
    requires Enabled(s, step)
  {
    match step
    case Dequeue(tx) =>
      (match Dequeued(s, tx)
       case None => txn
       case Some(id) => txn.(items := txn.items[id := s.events[id].retries]))
    case PutBack(_, id, outcome) => txn.(outcomes := txn.outcomes[id := outcome])
    case Emit(_, work) => txn.(emitted := txn.emitted[s.nextId := NewEvent(work, txn.start)])
    case _ => txn
  }

  function TxnsAfter(s: State, step: Step): map<TxnId, Txn>
    requires Enabled(s, step)
  {
    match step
    case Begin(tx) => s.txns[tx := Txn(s.now, map[], map[], map[])]
    case Dequeue(tx) => s.txns[tx := TxnAfter(s, step, s.txns[tx])]
    case PutBack(tx, _, _) => s.txns[tx := TxnAfter(s, step, s.txns[tx])]
    case Emit(tx, _) => s.txns[tx := TxnAfter(s, step, s.txns[tx])]
    case Commit(tx) => s.txns - {tx}
    case Rollback(tx) => s.txns - {tx}
    case _ => s.txns
  }

  /** ON CONFLICT DO NOTHING makes the rules a set. */
  function RulesAfter(s: State, step: Step): set<Rule> {
    match step
    case InsertRule(t, canvas, name) => s.rules + {Rule(t, canvas, name, WORKER)}
    case RemoveRule(t, canvas, name) => s.rules - {Rule(t, canvas, name, WORKER)}
    case _ => s.rules
  }

  function Apply(s: State, step: Step): State
    requires Enabled(s, step)
  {
    State(
      if step.Advance? then s.now + step.ms else s.now,
      if step.Enqueue? || step.Emit? then s.nextId + 1 else s.nextId,
      RowsAfter(s, step) + NewRows(s, step),
      RulesAfter(s, step),
      TxnsAfter(s, step))
  }

  const INITIAL := State(0, 0, map[], {}, map[])

  // ---- The invariant

  predicate RowOk(e: Event) {
    0 <= e.retries <= MAX_RETRIES && (e.status.Error? ==> e.retries == MAX_RETRIES)
  }

  /** A transaction holds committed, scheduled rows and puts back only what it holds. */
  predicate TxnOk(s: State, txn: Txn) {
    && txn.start <= s.now
    && (forall id :: id in txn.items ==>
          id in s.events && s.events[id].status.Scheduled? && txn.items[id] == s.events[id].retries)
    && (forall id :: id in txn.outcomes ==> id in txn.items)
    && (forall id :: id in txn.emitted ==>
          id < s.nextId && id !in s.events && RowOk(txn.emitted[id]) && txn.emitted[id].status.New?
          && txn.emitted[id].retries == 0)
  }

  /** No two open transactions hold the same event. */
  ghost predicate ExclusiveLeases(s: State) {
    forall t, u, id :: t in s.txns && u in s.txns && id in s.txns[t].items && id in s.txns[u].items ==> t == u
  }

  ghost predicate ExclusiveInserts(s: State) {
    forall t, u, id :: t in s.txns && u in s.txns && id in s.txns[t].emitted && id in s.txns[u].emitted ==> t == u
  }

  ghost predicate RowsOk(s: State) {
    forall id :: id in s.events ==> id < s.nextId && RowOk(s.events[id])
  }

  ghost predicate RulesOk(s: State) {
    forall r :: r in s.rules ==> r.space == WORKER
  }

  ghost predicate TxnsOk(s: State) {
    forall t :: t in s.txns ==> TxnOk(s, s.txns[t])
  }

  ghost predicate Inv(s: State) {
    RowsOk(s) && RulesOk(s) && TxnsOk(s) && ExclusiveLeases(s) && ExclusiveInserts(s)
  }

  /** Facts about the events after a step. */
  lemma EventsAfter(s: State, step: Step)
    requires Inv(s) && Enabled(s, step)
    ensures NewRows(s, step).Keys !! s.events.Keys
    ensures forall id :: id in s.events ==>
              id in Apply(s, step).events && Apply(s, step).events[id] == RowAfter(s, step, id)
    ensures forall id :: id in Apply(s, step).events && id !in s.events ==>
              id in NewRows(s, step) && Apply(s, step).events[id] == NewRows(s, step)[id]
  {
    if step.Commit? { assert TxnOk(s, s.txns[step.tx]); }
  }

  lemma EventsUntouched(s: State, step: Step)
    requires Enabled(s, step) && !step.Enqueue? && !step.Tick? && !step.Commit? && !step.Unschedule?
    ensures Apply(s, step).events == s.events
  {}

  lemma RowsStayOk(s: State, step: Step)
    requires Inv(s) && Enabled(s, step)
    ensures RowsOk(Apply(s, step))
  {
    var s' := Apply(s, step);
    EventsAfter(s, step);
    forall id | id in s'.events ensures id < s'.nextId && RowOk(s'.events[id]) {
      if id in s.events { RowStaysOk(s, step, id); } else { NewRowIsOk(s, step, id); }
    }
  }

  lemma RowStaysOk(s: State, step: Step, id: EventId)
    requires Inv(s) && Enabled(s, step) && id in s.events
    ensures RowOk(RowAfter(s, step, id))
  {
    assert RowOk(s.events[id]);
    if step.Commit? { assert TxnOk(s, s.txns[step.tx]); }
  }

  lemma NewRowIsOk(s: State, step: Step, id: EventId)
    requires Inv(s) && Enabled(s, step) && id in NewRows(s, step)
    ensures id <= s.nextId && (id == s.nextId ==> step.Enqueue?) && RowOk(NewRows(s, step)[id])
  {
    if step.Commit? { assert TxnOk(s, s.txns[step.tx]); }
  }

  /** A step leaves the rows that transactions hold alone, except the commit of the holder. */
  lemma HeldRowsStay(s: State, step: Step, t: TxnId, id: EventId)
    requires Inv(s) && Enabled(s, step)
    requires t in s.txns && id in s.txns[t].items && step != Commit(t)
    ensures id in Apply(s, step).events && Apply(s, step).events[id] == s.events[id]
  {
    EventsAfter(s, step);
    assert TxnOk(s, s.txns[t]);
    if step.Commit? {
      assert TxnOk(s, s.txns[step.tx]);
      assert id !in s.txns[step.tx].items;
    } else if step.Unschedule? {
      assert Held(s, id);
    }
  }

  lemma DequeuedIsFree(s: State, tx: TxnId)
    requires Inv(s) && tx in s.txns && Dequeued(s, tx).Some?
    ensures var id := Dequeued(s, tx).value;
            id in s.events && s.events[id].status.Scheduled? && id !in s.txns[tx].outcomes && !HeldByOther(s, tx, id)
  {
    assert TxnOk(s, s.txns[tx]);
    assert Dequeued(s, tx).value in Candidates(s, tx);
  }

  lemma NewRowIsNotEmittedElsewhere(s: State, step: Step, t: TxnId, id: EventId)
    requires Inv(s) && Enabled(s, step) && t in s.txns && step != Commit(t) && id in s.txns[t].emitted
    ensures id !in Apply(s, step).events
  {
    assert TxnOk(s, s.txns[t]);
    EventsAfter(s, step);
  }

  lemma UntouchedTxnStaysOk(s: State, step: Step, t: TxnId)
    requires Inv(s) && Enabled(s, step)
    requires t in s.txns && step != Commit(t)
    ensures TxnOk(Apply(s, step), s.txns[t])
  {
    var txn, s' := s.txns[t], Apply(s, step);
    assert TxnOk(s, txn);
    forall id | id in txn.items
      ensures id in s'.events && s'.events[id].status.Scheduled? && txn.items[id] == s'.events[id].retries
    {
      HeldRowsStay(s, step, t, id);
    }
    forall id | id in txn.emitted ensures id !in s'.events { NewRowIsNotEmittedElsewhere(s, step, t, id); }
  }

  lemma TxnsStayOk(s: State, step: Step)
    requires Inv(s) && Enabled(s, step)
    ensures TxnsOk(Apply(s, step))
  {
    var s' := Apply(s, step);
    forall t | t in s'.txns ensures TxnOk(s', s'.txns[t]) {
      if t in s.txns {
        UntouchedTxnStaysOk(s, step, t);
        if s'.txns[t] != s.txns[t] { ActingTxnStaysOk(s, step, t); }
      }
    }
  }

  lemma ActingTxnStaysOk(s: State, step: Step, t: TxnId)
    requires Inv(s) && Enabled(s, step) && t in s.txns && TxnOk(Apply(s, step), s.txns[t])
    requires step == Dequeue(t) || (step.PutBack? && step.tx == t) || (step.Emit? && step.tx == t)
    ensures TxnOk(Apply(s, step), TxnAfter(s, step, s.txns[t]))
  {
    EventsAfter(s, step);
    if step.Dequeue? && Dequeued(s, t).Some? { DequeuedIsFree(s, t); }
    if step.Emit? { assert s.nextId !in s.events; }
  }

  lemma LeasesStayExclusive(s: State, step: Step)
    requires Inv(s) && Enabled(s, step)
    ensures ExclusiveLeases(Apply(s, step))
  {
    if step.Dequeue? && Dequeued(s, step.tx).Some? {
      DequeuedIsFree(s, step.tx);
      var id := Dequeued(s, step.tx).value;
      forall t | t in s.txns && id in s.txns[t].items ensures t == step.tx {
        assert !HeldByOther(s, step.tx, id);
      }
    }
  }

  lemma InsertsStayExclusive(s: State, step: Step)
    requires Inv(s) && Enabled(s, step)
    ensures ExclusiveInserts(Apply(s, step))
  {
    var s' := Apply(s, step);
    forall t | t in s.txns ensures s.nextId !in s.txns[t].emitted { assert TxnOk(s, s.txns[t]); }
    forall t, id | t in s'.txns && id in s'.txns[t].emitted
      ensures t in s.txns && (id in s.txns[t].emitted || (step.Emit? && t == step.tx && id == s.nextId))
    {
      EmittedAfter(s, step, t, id);
    }
  }

  lemma EmittedAfter(s: State, step: Step, t: TxnId, id: EventId)
    requires Enabled(s, step) && t in TxnsAfter(s, step) && id in TxnsAfter(s, step)[t].emitted
    ensures t in s.txns && (id in s.txns[t].emitted || (step.Emit? && t == step.tx && id == s.nextId))
  {}

  /** Every step of every component keeps the invariant. */
  lemma StepKeepsInv(s: State, step: Step)
    requires Inv(s) && Enabled(s, step)
    ensures Inv(Apply(s, step))
  {
    RowsStayOk(s, step);
    TxnsStayOk(s, step);
    LeasesStayExclusive(s, step);
    InsertsStayExclusive(s, step);
  }

  // ---- Runs

  /** Each step is possible where it is taken. */
  predicate Legal(s: State, steps: seq<Step>)
    decreases |steps|
  {
    |steps| == 0 || (Enabled(s, steps[0]) && Legal(Apply(s, steps[0]), steps[1..]))
  }

  function Final(s: State, steps: seq<Step>): State
    requires Legal(s, steps)
    decreases |steps|
  {
    if |steps| == 0 then s else Final(Apply(s, steps[0]), steps[1..])
  }

  lemma {:induction false} RunKeepsInv(s: State, steps: seq<Step>)
    requires Inv(s) && Legal(s, steps)
    ensures Inv(Final(s, steps))
    decreases |steps|
  {
    if |steps| == 0 {
    } else {
      StepKeepsInv(s, steps[0]);
      RunKeepsInv(Apply(s, steps[0]), steps[1..]);
    }
  }

  lemma {:induction false} RunConcat(s: State, a: seq<Step>, b: seq<Step>)
    ensures Legal(s, a + b) <==> Legal(s, a) && Legal(Final(s, a), b)
    ensures Legal(s, a + b) ==> Final(s, a + b) == Final(Final(s, a), b)
    decreases |a|
  {
    if |a| == 0 {
      assert a + b == b;
    } else {
      assert (a + b)[0] == a[0] && (a + b)[1..] == a[1..] + b;
      if Enabled(s, a[0]) { RunConcat(Apply(s, a[0]), a[1..], b); }
    }
  }
}
