/** Scheduling rules: what pausing or blocking a worker guarantees, and that the reported
    worker states are the scheduler's (event_queue.ml, queue-scheduler/src/lib.rs). */
module EventQueueRules {
  import opened Common
  import opened EventQueue
  import opened EventQueueRuns

  // ---- Stopping a worker

  predicate HasStop(s: State, canvas: CanvasId, name: string) {
    Rule(Block, canvas, name, WORKER) in s.rules || Rule(Pause, canvas, name, WORKER) in s.rules
  }

  function ScheduledFor(s: State, canvas: CanvasId, name: string): set<EventId> {
    set id | id in s.events && s.events[id].status.Scheduled? && IsFor(s.events[id].work, canvas, name)
  }

  /** At every state of the run some rule stops the worker. */
  predicate StopKept(s: State, steps: seq<Step>, canvas: CanvasId, name: string)
    requires Legal(s, steps)
    decreases |steps|
  {
    HasStop(s, canvas, name)
    && (|steps| > 0 ==> StopKept(Apply(s, steps[0]), steps[1..], canvas, name))
  }

  lemma StoppedStepSchedulesNothing(s: State, step: Step, canvas: CanvasId, name: string)
    requires Inv(s) && Enabled(s, step) && HasStop(s, canvas, name)
    ensures ScheduledFor(Apply(s, step), canvas, name) <= ScheduledFor(s, canvas, name)
  {
    var s' := Apply(s, step);
    EventsAfter(s, step);
    if step.Commit? { assert TxnOk(s, s.txns[step.tx]); }
    forall id | id in ScheduledFor(s', canvas, name) ensures id in ScheduledFor(s, canvas, name) {
      assert id in s.events;
      StepConserves(s, step, id);
      StatusChanges(s, step, id);
    }
  }

  /** From the first statement of add_scheduling_rule on, nothing of the worker is scheduled
      that was not scheduled before. */
  lemma {:induction false} StoppedRunSchedulesNothing(s: State, steps: seq<Step>, canvas: CanvasId, name: string)
    requires Inv(s) && Legal(s, steps) && StopKept(s, steps, canvas, name)
    ensures ScheduledFor(Final(s, steps), canvas, name) <= ScheduledFor(s, canvas, name)
    decreases |steps|
  {
    if |steps| == 0 {
    } else {
      StoppedStepSchedulesNothing(s, steps[0], canvas, name);
      StepKeepsInv(s, steps[0]);
      StoppedRunSchedulesNothing(Apply(s, steps[0]), steps[1..], canvas, name);
    }
  }

  /** The second statement unschedules everything of the worker, and nothing else. */
  lemma UnscheduleClears(s: State, canvas: CanvasId, name: string)
    requires Inv(s) && Enabled(s, Unschedule(canvas, name))
    ensures ScheduledFor(Apply(s, Unschedule(canvas, name)), canvas, name) == {}
    ensures forall id :: id in s.events && !IsFor(s.events[id].work, canvas, name) ==>
              Apply(s, Unschedule(canvas, name)).events[id] == s.events[id]
  {
    EventsAfter(s, Unschedule(canvas, name));
  }

  /** Once both statements have run, whatever ran between them, no event of the worker is
      scheduled or dequeued while a block or a pause rule for it remains. */
  lemma StoppedWorkerStaysStopped(s: State, canvas: CanvasId, name: string, after: seq<Step>)
    requires Inv(s) && Enabled(s, Unschedule(canvas, name))
    requires Legal(Apply(s, Unschedule(canvas, name)), after)
    requires StopKept(Apply(s, Unschedule(canvas, name)), after, canvas, name)
    ensures var end := Final(Apply(s, Unschedule(canvas, name)), after);
            && (forall id :: id in end.events && IsFor(end.events[id].work, canvas, name) ==>
                  !end.events[id].status.Scheduled?)
            && forall tx :: tx in end.txns && Dequeued(end, tx).Some? ==>
                 Dequeued(end, tx).value in end.events
                 && !IsFor(end.events[Dequeued(end, tx).value].work, canvas, name)
  {
    var s' := Apply(s, Unschedule(canvas, name));
    var end := Final(s', after);
    UnscheduleClears(s, canvas, name);
    StepKeepsInv(s, Unschedule(canvas, name));
    StoppedRunSchedulesNothing(s', after, canvas, name);
    RunKeepsInv(s', after);
    forall id | id in end.events && IsFor(end.events[id].work, canvas, name) ensures !end.events[id].status.Scheduled? {
      assert id !in ScheduledFor(end, canvas, name);
    }
    forall tx | tx in end.txns && Dequeued(end, tx).Some?
      ensures Dequeued(end, tx).value in end.events
      ensures !IsFor(end.events[Dequeued(end, tx).value].work, canvas, name)
    {
      DequeuedIsFree(end, tx);
    }
  }

  lemma {:induction false} UnremovedRuleStops(
    s: State, steps: seq<Step>, t: RuleType, canvas: CanvasId, name: string)
    requires Legal(s, steps) && Rule(t, canvas, name, WORKER) in s.rules
    requires forall i :: 0 <= i < |steps| ==> steps[i] != RemoveRule(t, canvas, name)
    ensures StopKept(s, steps, canvas, name)
    ensures Rule(t, canvas, name, WORKER) in Final(s, steps).rules
    decreases |steps|
  {
    if |steps| == 0 {
    } else {
      assert steps[0] != RemoveRule(t, canvas, name);
      UnremovedRuleStops(Apply(s, steps[0]), steps[1..], t, canvas, name);
    }
  }

  /** add_scheduling_rule, then anything but the removal of that rule: `between` and `after`
      may hold ticks, put-backs, other rules, more workers. */
  lemma AddedRuleStopsWorker(
    s: State, t: RuleType, canvas: CanvasId, name: string, between: seq<Step>, after: seq<Step>, id: EventId)
    requires Inv(s)
    requires Legal(s, [InsertRule(t, canvas, name)] + between + [Unschedule(canvas, name)] + after)
    requires RemoveRule(t, canvas, name) !in between && RemoveRule(t, canvas, name) !in after
    ensures var end := Final(s, [InsertRule(t, canvas, name)] + between + [Unschedule(canvas, name)] + after);
            id in end.events && IsFor(end.events[id].work, canvas, name) ==>
              !end.events[id].status.Scheduled? && forall tx :: tx in end.txns ==> Dequeued(end, tx) != Some(id)
  {
    var insert, unschedule := [InsertRule(t, canvas, name)], [Unschedule(canvas, name)];
    RunConcat(s, insert + between + unschedule, after);
    RunConcat(s, insert + between, unschedule);
    RunConcat(s, insert, between);
    var s1 := Final(s, insert);
    assert s1 == Apply(s, InsertRule(t, canvas, name));
    UnremovedRuleStops(s1, between, t, canvas, name);
    var s2 := Final(s1, between);
    var s3 := Apply(s2, Unschedule(canvas, name));
    assert Final(s2, unschedule) == s3;
    UnremovedRuleStops(s3, after, t, canvas, name);
    RunKeepsInv(s, insert + between);
    StoppedWorkerStaysStopped(s2, canvas, name, after);
  }

  // ---- The report

  datatype WorkerState = Running | Blocked | Paused

  function AllRunning(names: seq<string>, states: map<string, WorkerState>): map<string, WorkerState> {
    if |names| == 0 then states else AllRunning(names[1..], states[names[0] := Running])
  }

  function RulesOfType(t: RuleType, rules: seq<Rule>): seq<Rule> {
    if |rules| == 0 then []
    else if rules[0].ruleType == t then [rules[0]] + RulesOfType(t, rules[1..])
    else RulesOfType(t, rules[1..])
  }

  function StateOf(t: RuleType): WorkerState {
    match t case Block => Blocked case Pause => Paused
  }

  function Override(states: map<string, WorkerState>, rules: seq<Rule>): map<string, WorkerState>
    decreases |rules|
  {
    if |rules| == 0 then states
    else Override(states[rules[0].handlerName := StateOf(rules[0].ruleType)], rules[1..])
  }

  /** get_worker_schedules_for_canvas, from the names of the workers and the rule rows. */
  function WorkerStates(names: seq<string>, rules: seq<Rule>): map<string, WorkerState> {
    Override(AllRunning(names, map[]), RulesOfType(Pause, rules) + RulesOfType(Block, rules))
  }

  /** What get_scheduling_rules_for_canvas fetches, in any order. */
  ghost predicate RuleRows(s: State, canvas: CanvasId, rows: seq<Rule>) {
    forall r :: r in rows <==> r in s.rules && r.canvas == canvas
  }

  lemma {:induction false} AllRunningLookup(names: seq<string>, states: map<string, WorkerState>, name: string)
    ensures name in AllRunning(names, states) <==> name in names || name in states
    ensures name in names ==> AllRunning(names, states)[name] == Running
    ensures name !in names && name in states ==> AllRunning(names, states)[name] == states[name]
  {
    if |names| == 0 {
    } else {
      AllRunningLookup(names[1..], states[names[0] := Running], name);
    }
  }

  lemma {:induction false} RulesOfTypeMembers(t: RuleType, rules: seq<Rule>, r: Rule)
    ensures r in RulesOfType(t, rules) <==> r in rules && r.ruleType == t
  {
    if |rules| == 0 {
    } else {
      RulesOfTypeMembers(t, rules[1..], r);
    }
  }

  predicate Names(rules: seq<Rule>, name: string) {
    exists i :: 0 <= i < |rules| && rules[i].handlerName == name
  }

  lemma NamesTail(rules: seq<Rule>, name: string)
    requires |rules| > 0
    ensures Names(rules, name) <==> rules[0].handlerName == name || Names(rules[1..], name)
  {
    if Names(rules, name) && rules[0].handlerName != name {
      var i :| 0 <= i < |rules| && rules[i].handlerName == name;
      assert rules[1..][i - 1].handlerName == name;
    }
    if Names(rules[1..], name) {
      var i :| 0 <= i < |rules[1..]| && rules[1..][i].handlerName == name;
      assert rules[i + 1].handlerName == name;
    }
  }

  lemma {:induction false} OverrideLookup(states: map<string, WorkerState>, t: RuleType, rules: seq<Rule>, name: string)
    requires forall i :: 0 <= i < |rules| ==> rules[i].ruleType == t
    ensures name in Override(states, rules) <==> name in states || Names(rules, name)
    ensures Names(rules, name) ==> Override(states, rules)[name] == StateOf(t)
    ensures !Names(rules, name) && name in states ==> Override(states, rules)[name] == states[name]
    decreases |rules|
  {
    if |rules| == 0 {
    } else {
      NamesTail(rules, name);
      OverrideLookup(states[rules[0].handlerName := StateOf(t)], t, rules[1..], name);
    }
  }

  lemma {:induction false} OverrideConcat(states: map<string, WorkerState>, a: seq<Rule>, b: seq<Rule>)
    ensures Override(states, a + b) == Override(Override(states, a), b)
    decreases |a|
  {
    if |a| == 0 {
      assert a + b == b;
    } else {
      assert (a + b)[0] == a[0] && (a + b)[1..] == a[1..] + b;
      OverrideConcat(states[a[0].handlerName := StateOf(a[0].ruleType)], a[1..], b);
    }
  }

  lemma NamesOfType(s: State, canvas: CanvasId, rows: seq<Rule>, t: RuleType, name: string)
    requires Inv(s) && RuleRows(s, canvas, rows)
    ensures forall r :: r in RulesOfType(t, rows) ==> r.ruleType == t
    ensures Names(RulesOfType(t, rows), name) <==> Rule(t, canvas, name, WORKER) in s.rules
  {
    var rules := RulesOfType(t, rows);
    forall r ensures r in rules <==> r in rows && r.ruleType == t { RulesOfTypeMembers(t, rows, r); }
    if Names(rules, name) {
      var i :| 0 <= i < |rules| && rules[i].handlerName == name;
      assert rules[i] in rules && rules[i] in rows && rules[i] in s.rules;
      assert rules[i] == Rule(t, canvas, name, WORKER);
    }
    var rule := Rule(t, canvas, name, WORKER);
    if rule in s.rules {
      assert rule in rows && rule in rules;
      var i :| 0 <= i < |rules| && rules[i] == rule;
      assert rules[i].handlerName == name;
    }
  }

  /** The state a worker should show. */
  function Expected(s: State, canvas: CanvasId, name: string): WorkerState {
    if Rule(Block, canvas, name, WORKER) in s.rules then Blocked
    else if Rule(Pause, canvas, name, WORKER) in s.rules then Paused
    else Running
  }

  /** A worker shows Blocked if it has a block rule, else Paused if it has a pause rule, else
      Running; a rule for a handler that is not listed adds it. */
  lemma ReportIsExact(s: State, canvas: CanvasId, names: seq<string>, rows: seq<Rule>, name: string)
    requires Inv(s) && RuleRows(s, canvas, rows)
    ensures name in WorkerStates(names, rows) <==> name in names || HasStop(s, canvas, name)
    ensures name in WorkerStates(names, rows) ==> WorkerStates(names, rows)[name] == Expected(s, canvas, name)
  {
    var pauses, blocks := RulesOfType(Pause, rows), RulesOfType(Block, rows);
    var running := AllRunning(names, map[]);
    AllRunningLookup(names, map[], name);
    NamesOfType(s, canvas, rows, Pause, name);
    NamesOfType(s, canvas, rows, Block, name);
    OverrideConcat(running, pauses, blocks);
    OverrideLookup(running, Pause, pauses, name);
    OverrideLookup(Override(running, pauses), Block, blocks, name);
  }

  /** In every reachable state the next tick schedules a due new event of a listed worker
      exactly when the worker shows Running. */
  lemma ReportAgreesWithTick(
    steps: seq<Step>, names: seq<string>, rows: seq<Rule>, id: EventId)
    requires Legal(INITIAL, steps)
    requires var s := Final(INITIAL, steps);
             id in s.events && s.events[id].status.New? && s.events[id].delayUntil < s.now
             && s.events[id].work.space == WORKER && s.events[id].work.name in names
             && RuleRows(s, s.events[id].work.canvas, rows)
    ensures var s := Final(INITIAL, steps);
            var name := s.events[id].work.name;
            id in Apply(s, Tick).events && name in WorkerStates(names, rows)
            && (Apply(s, Tick).events[id].status.Scheduled? <==> WorkerStates(names, rows)[name] == Running)
  {
    var s := Final(INITIAL, steps);
    RunKeepsInv(INITIAL, steps);
    EventsAfter(s, Tick);
    ReportIsExact(s, s.events[id].work.canvas, names, rows, s.events[id].work.name);
  }
}
