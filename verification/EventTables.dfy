/** The tables and transactions updated in place: each operation of event_queue.ml and the
    scheduler's tick takes the steps of the state machine. */
module EventTables {
  import opened Common
  import opened EventQueue
  import opened EventQueueWorker
  import EventQueueRules

  /** What dequeue hands to a worker. */
  datatype Item = Item(id: EventId, work: Work, retries: int, delay: Time)

  // ---- What a step does to the events table

  lemma EventInserted(s: State, work: Work)
    ensures Apply(s, Enqueue(work)) == s.(events := s.events[s.nextId := NewEvent(work, s.now)], nextId := s.nextId + 1)
  {
    assert RowsAfter(s, Enqueue(work)) == s.events;
  }

  /** The rows that schedule_events updates. */
  function NewlyScheduled(s: State): set<EventId> {
    set id | id in s.events && TickRow(s.rules, s.now, s.events[id]) != s.events[id]
  }

  lemma UnscheduledState(s: State, canvas: CanvasId, name: string)
    requires Enabled(s, Unschedule(canvas, name))
    ensures Apply(s, Unschedule(canvas, name))
         == s.(events := map id | id in s.events :: UnscheduleRow(canvas, name, s.events[id]))
  {
    var step := Unschedule(canvas, name);
    assert RowsAfter(s, step) == map id | id in s.events :: UnscheduleRow(canvas, name, s.events[id]);
    assert RowsAfter(s, step) + map[] == RowsAfter(s, step);
  }

  lemma TickedState(s: State)
    ensures Apply(s, Tick) == s.(events := map id | id in s.events :: TickRow(s.rules, s.now, s.events[id]))
  {
    assert RowsAfter(s, Tick) == map id | id in s.events :: TickRow(s.rules, s.now, s.events[id]);
    assert RowsAfter(s, Tick) + map[] == RowsAfter(s, Tick);
  }

  class Tables {
    var now: Time
    var nextId: EventId
    var events: map<EventId, Event>
    var rules: set<Rule>
    var txns: map<TxnId, Txn>

    ghost function State(): State
      reads this
    {
      EventQueue.State(now, nextId, events, rules, txns)
    }

    ghost predicate Valid()
      reads this
    {
      Inv(State())
    }

    constructor ()
      ensures State() == INITIAL && Valid()
    {
      now, nextId, events, rules, txns := 0, 0, map[], {}, map[];
    }

    method Sleep(ms: nat)
      requires Valid()
      modifies this`now
      ensures Valid() && State() == Apply(old(State()), Advance(ms))
    {
      StepKeepsInv(State(), Advance(ms));
      EventsUntouched(State(), Advance(ms));
      now := now + ms;
    }

    /** enqueue outside a worker. */
    method Enqueue(work: Work)
      requires Valid()
      modifies this
      ensures Valid() && State() == Apply(old(State()), EventQueue.Enqueue(work))
    {
      StepKeepsInv(State(), EventQueue.Enqueue(work));
      EventInserted(State(), work);
      events := events[nextId := NewEvent(work, now)];
      nextId := nextId + 1;
    }

    /** enqueue by a handler that a worker runs. */
    method EmitFrom(tx: TxnId, work: Work)
      requires Valid() && tx in txns
      modifies this
      ensures Valid() && State() == Apply(old(State()), Emit(tx, work))
    {
      StepKeepsInv(State(), Emit(tx, work));
      EventsUntouched(State(), Emit(tx, work));
      txns := txns[tx := txns[tx].(emitted := txns[tx].emitted[nextId := NewEvent(work, txns[tx].start)])];
      nextId := nextId + 1;
    }

    /** schedule_events */
    method TickOnce() returns (newlyScheduled: nat)
      requires Valid()
      modifies this`events
      ensures Valid() && State() == Apply(old(State()), Tick)
      ensures newlyScheduled == |NewlyScheduled(old(State()))|
    {
      StepKeepsInv(State(), Tick);
      TickedState(State());
      var due := set id | id in events && TickRow(rules, now, events[id]) != events[id];
      assert due == NewlyScheduled(State());
      events := map id | id in events :: TickRow(rules, now, events[id]);
      newlyScheduled := |due|;
    }

    method BeginTransaction(tx: TxnId)
      requires Valid() && tx !in txns
      modifies this`txns
      ensures Valid() && State() == Apply(old(State()), Begin(tx))
    {
      StepKeepsInv(State(), Begin(tx));
      EventsUntouched(State(), Begin(tx));
      txns := txns[tx := Txn(now, map[], map[], map[])];
    }

    method EndTransaction(tx: TxnId)
      requires Valid() && tx in txns
      modifies this
      ensures Valid() && State() == Apply(old(State()), Commit(tx))
    {
      StepKeepsInv(State(), Commit(tx));
      CommittedState(State(), tx);
      var txn := txns[tx];
      events := (map id | id in events :: View(txn, id, events[id])) + txn.emitted;
      txns := txns - {tx};
    }

    /** The worker's connection is lost. */
    method Abort(tx: TxnId)
      requires Valid() && tx in txns
      modifies this`txns
      ensures Valid() && State() == Apply(old(State()), Rollback(tx))
    {
      StepKeepsInv(State(), Rollback(tx));
      EventsUntouched(State(), Rollback(tx));
      txns := txns - {tx};
    }

    method Dequeue(tx: TxnId) returns (item: Option<Item>)
      requires Valid() && tx in txns
      modifies this`txns
      ensures Valid() && State() == Apply(old(State()), EventQueue.Dequeue(tx))
      ensures item.Some? <==> Dequeued(old(State()), tx).Some?
      ensures item.Some? ==>
                Dequeued(old(State()), tx) == Some(item.value.id) && item.value.id in events
                && item.value.work == events[item.value.id].work
                && item.value.retries == events[item.value.id].retries
                && item.value.delay == txns[tx].start - events[item.value.id].enqueuedAt
    {
      ghost var before := State();
      StepKeepsInv(before, EventQueue.Dequeue(tx));
      EventsUntouched(before, EventQueue.Dequeue(tx));
      var txn := txns[tx];
      var candidates := set id | id in events && View(txn, id, events[id]).status.Scheduled?
                                 && !(exists t :: t in txns && t != tx && id in txns[t].items);
      assert candidates == Candidates(before, tx);
      var lowest := Lowest(candidates);
      assert lowest == Dequeued(before, tx);
      if lowest.None? {
        assert txns[tx := txns[tx]] == txns;
        return None;
      }
      var id := lowest.value;
      assert id in candidates;
      txns := txns[tx := txn.(items := txn.items[id := events[id].retries])];
      return Some(Item(id, events[id].work, events[id].retries, txn.start - events[id].enqueuedAt));
    }

    /** put_back of an item that this transaction dequeued. */
    method PutBack(tx: TxnId, item: Item, outcome: Outcome)
      requires Valid() && tx in txns && item.id in txns[tx].items && item.id !in txns[tx].outcomes
      requires item.retries == txns[tx].items[item.id]
      modifies this`txns
      ensures Valid() && State() == Apply(old(State()), EventQueue.PutBack(tx, item.id, outcome))
    {
      StepKeepsInv(State(), EventQueue.PutBack(tx, item.id, outcome));
      EventsUntouched(State(), EventQueue.PutBack(tx, item.id, outcome));
      txns := txns[tx := txns[tx].(outcomes := txns[tx].outcomes[item.id := outcome])];
    }

    /** dequeue_and_process, where the handler emits nothing and ends with `outcome`. */
    method DequeueAndProcess(tx: TxnId, outcome: Outcome) returns (item: Option<Item>)
      requires Valid() && tx !in txns
      modifies this
      ensures Valid()
      ensures item.None? <==> Unheld(old(State())) == {}
      ensures item.None? ==> State() == old(State())
      ensures item.Some? ==>
                IsLowest(item.value.id, Unheld(old(State())))
                && State() == Processed(old(State()), item.value.id, outcome)
    {
      ghost var s := State();
      BeginTransaction(tx);
      DequeueInFreshTxn(s, tx);
      item := Dequeue(tx);
      if item.Some? {
        ghost var id, items := item.value.id, map[item.value.id := events[item.value.id].retries];
        DequeueLocks(s, tx, id);
        assert State() == InTxn(s, tx, items, map[]);
        assert txns[tx] == Txn(s.now, items, map[], map[]);
        PutBack(tx, item.value, outcome);
        ProcessedInTxn(s, tx, id, outcome);
        assert State() == InTxn(s, tx, items, map[id := outcome]);
        EndTransaction(tx);
      } else {
        DequeueFindsNothing(s, tx);
        assert State() == InTxn(s, tx, map[], map[]);
        EndTransaction(tx);
        NothingProcessed(s, tx);
      }
    }

    /** The two statements of add_scheduling_rule, with nothing between them. */
    method AddSchedulingRule(t: RuleType, canvas: CanvasId, name: string)
      requires Valid() && Enabled(State(), Unschedule(canvas, name))
      modifies this
      ensures Valid()
      ensures Enabled(Apply(old(State()), InsertRule(t, canvas, name)), Unschedule(canvas, name))
      ensures State() == Apply(Apply(old(State()), InsertRule(t, canvas, name)), Unschedule(canvas, name))
      ensures EventQueueRules.HasStop(State(), canvas, name)
      ensures EventQueueRules.ScheduledFor(State(), canvas, name) == {}
    {
      InsertRuleRow(t, canvas, name);
      ghost var between := State();
      UnscheduleEvents(canvas, name);
      EventQueueRules.UnscheduleClears(between, canvas, name);
    }

    method InsertRuleRow(t: RuleType, canvas: CanvasId, name: string)
      requires Valid()
      modifies this`rules
      ensures Valid() && State() == Apply(old(State()), InsertRule(t, canvas, name))
      ensures events == old(events) && txns == old(txns)
    {
      StepKeepsInv(State(), InsertRule(t, canvas, name));
      EventsUntouched(State(), InsertRule(t, canvas, name));
      rules := rules + {Rule(t, canvas, name, WORKER)};
    }

    method UnscheduleEvents(canvas: CanvasId, name: string)
      requires Valid() && Enabled(State(), Unschedule(canvas, name))
      modifies this`events
      ensures Valid() && State() == Apply(old(State()), Unschedule(canvas, name))
    {
      StepKeepsInv(State(), Unschedule(canvas, name));
      UnscheduledState(State(), canvas, name);
      events := map id | id in events :: UnscheduleRow(canvas, name, events[id]);
    }

    method RemoveSchedulingRule(t: RuleType, canvas: CanvasId, name: string)
      requires Valid()
      modifies this`rules
      ensures Valid() && State() == Apply(old(State()), RemoveRule(t, canvas, name))
    {
      StepKeepsInv(State(), RemoveRule(t, canvas, name));
      EventsUntouched(State(), RemoveRule(t, canvas, name));
      rules := rules - {Rule(t, canvas, name, WORKER)};
    }
  }
}
