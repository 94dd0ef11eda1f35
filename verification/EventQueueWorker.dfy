/** One turn of a worker (queue_worker.ml): begin, dequeue, put back, commit. */
module EventQueueWorker {
  import opened Common
  import opened EventQueue

  lemma CommittedState(s: State, tx: TxnId)
    requires tx in s.txns
    ensures Apply(s, Commit(tx)).events
         == (map id | id in s.events :: View(s.txns[tx], id, s.events[id])) + s.txns[tx].emitted
  {
    assert RowsAfter(s, Commit(tx)) == map id | id in s.events :: View(s.txns[tx], id, s.events[id]);
  }

  /** The scheduled events that no open transaction holds. */
  function Unheld(s: State): set<EventId> {
    set id | id in s.events && s.events[id].status.Scheduled? && !Held(s, id)
  }

  /** The event put back with the outcome, by a transaction that starts now. */
  function Processed(s: State, id: EventId, outcome: Outcome): State
    requires id in s.events
  {
    s.(events := s.events[id := PutBackRow(s.events[id], outcome, s.events[id].retries, s.now)])
  }

  function InTxn(s: State, tx: TxnId, items: map<EventId, int>, outcomes: map<EventId, Outcome>): State {
    s.(txns := s.txns[tx := Txn(s.now, items, outcomes, map[])])
  }

  lemma DequeueInFreshTxn(s: State, tx: TxnId)
    requires tx !in s.txns
    ensures Apply(s, Begin(tx)) == InTxn(s, tx, map[], map[])
    ensures Dequeued(Apply(s, Begin(tx)), tx) == Lowest(Unheld(s))
  {
    EventsUntouched(s, Begin(tx));
    var s' := Apply(s, Begin(tx));
    forall id | id in s.events ensures HeldByOther(s', tx, id) <==> Held(s, id) {
      if Held(s, id) {
        var t :| t in s.txns && id in s.txns[t].items;
        assert t in s'.txns && t != tx && id in s'.txns[t].items;
      }
      if HeldByOther(s', tx, id) {
        var t :| t in s'.txns && t != tx && id in s'.txns[t].items;
        assert t in s.txns;
      }
    }
    assert Candidates(s', tx) == Unheld(s);
  }

  lemma DequeueLocks(s: State, tx: TxnId, id: EventId)
    requires tx !in s.txns && Lowest(Unheld(s)) == Some(id)
    ensures var s1 := InTxn(s, tx, map[], map[]);
            Apply(s1, Dequeue(tx)) == InTxn(s, tx, map[id := s.events[id].retries], map[])
  {
    DequeueInFreshTxn(s, tx);
    EventsUntouched(InTxn(s, tx, map[], map[]), Dequeue(tx));
  }

  lemma DequeueFindsNothing(s: State, tx: TxnId)
    requires tx !in s.txns && Lowest(Unheld(s)) == None
    ensures var s1 := InTxn(s, tx, map[], map[]); Apply(s1, Dequeue(tx)) == s1
  {
    DequeueInFreshTxn(s, tx);
    var s1 := InTxn(s, tx, map[], map[]);
    EventsUntouched(s1, Dequeue(tx));
    assert s1.txns[tx := s1.txns[tx]] == s1.txns;
  }

  lemma NothingProcessed(s: State, tx: TxnId)
    requires tx !in s.txns
    ensures Apply(InTxn(s, tx, map[], map[]), Commit(tx)) == s
  {
    CommittedState(InTxn(s, tx, map[], map[]), tx);
    assert InTxn(s, tx, map[], map[]).txns - {tx} == s.txns;
  }

  lemma ProcessedInTxn(s: State, tx: TxnId, id: EventId, outcome: Outcome)
    requires tx !in s.txns && id in s.events
    ensures var items := map[id := s.events[id].retries];
            Enabled(InTxn(s, tx, items, map[]), PutBack(tx, id, outcome))
            && Apply(InTxn(s, tx, items, map[]), PutBack(tx, id, outcome)) == InTxn(s, tx, items, map[id := outcome])
            && Apply(InTxn(s, tx, items, map[id := outcome]), Commit(tx)) == Processed(s, id, outcome)
  {
    var items := map[id := s.events[id].retries];
    EventsUntouched(InTxn(s, tx, items, map[]), PutBack(tx, id, outcome));
    ProcessedCommit(s, tx, id, outcome);
  }

  lemma ProcessedCommit(s: State, tx: TxnId, id: EventId, outcome: Outcome)
    requires tx !in s.txns && id in s.events
    ensures Apply(InTxn(s, tx, map[id := s.events[id].retries], map[id := outcome]), Commit(tx))
         == Processed(s, id, outcome)
  {
    var s3 := InTxn(s, tx, map[id := s.events[id].retries], map[id := outcome]);
    CommittedState(s3, tx);
    assert s3.txns - {tx} == s.txns;
  }
}
