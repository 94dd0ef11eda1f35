/** The coalescing queue in front of the analysis worker (appsupport.js, fsharpAnalysis). */
module AnalysisQueue {
  import opened Common

  type Params = string

  /** What stringifyInput returns. */
  datatype Input = Input(isError: bool, json: string)

  /** What is posted to the worker: the text, or the failed input itself. */
  datatype Message = Text(json: string) | Failed(input: Input)

  type Stringify = Params -> Input

  function MessageOf(stringify: Stringify, params: Params): Message {
    var input := stringify(params);
    if input.isError then Failed(input) else Text(input.json)
  }

  function Messages(stringify: Stringify, all: seq<Params>): seq<Message> {
    seq(|all|, i requires 0 <= i < |all| => MessageOf(stringify, all[i]))
  }

  /** The object, the timers it has set, the messages posted to the worker and how many of
      them the worker has answered; `requested` and `accepted` log the calls and those that
      found the worker initialized. */
  datatype State = State(
    busy: bool, next: Option<Message>, initialized: bool,
    timers: multiset<Params>, posted: seq<Message>, answered: nat,
    requested: multiset<Params>, accepted: seq<Params>)

  const INITIAL := State(false, None, false, multiset{}, [], 0, multiset{}, [])

  datatype Step =
    | Initialized
    | Request(params: Params)
    | TimerFires(params: Params)
    | Callback

  /** A timer fires once; the worker answers each message once. */
  predicate Enabled(s: State, step: Step) {
    match step
    case TimerFires(params) => params in s.timers
    case Callback => s.answered < |s.posted|
    case _ => true
  }

  function OnRequest(stringify: Stringify, params: Params, s: State): State {
    if !s.initialized then s.(timers := s.timers + multiset{params})
    else
      var message := MessageOf(stringify, params);
      var s' := s.(accepted := s.accepted + [params]);
      if s.busy then s'.(next := Some(message))
      else s'.(posted := s.posted + [message], busy := true)
  }

  function OnCallback(s: State): State {
    match s.next
    case None => s.(busy := false)
    case Some(message) => s.(next := None, posted := s.posted + [message])
  }

  function Apply(stringify: Stringify, s: State, step: Step): State
    requires Enabled(s, step)
  {
    match step
    case Initialized => s.(initialized := true)
    case Request(params) => OnRequest(stringify, params, s.(requested := s.requested + multiset{params}))
    case TimerFires(params) => OnRequest(stringify, params, s.(timers := s.timers - multiset{params}))
    case Callback => OnCallback(s.(answered := s.answered + 1))
  }

  // ---- The invariant

  function Unanswered(s: State): int { |s.posted| - s.answered }

  /** What was posted and what will be posted next. */
  function Outgoing(s: State): seq<Message> {
    s.posted + match s.next case None => [] case Some(message) => [message]
  }

  ghost predicate Inv(stringify: Stringify, s: State) {
    var all := Messages(stringify, s.accepted);
    && Unanswered(s) == (if s.busy then 1 else 0)
    && (s.next.Some? ==> s.busy)
    && (!s.initialized ==> s.accepted == [])
    && IsSubsequence(Outgoing(s), all)
    && (|all| > 0 ==> |Outgoing(s)| > 0 && Outgoing(s)[|Outgoing(s)| - 1] == all[|all| - 1])
    && s.requested == s.timers + multiset(s.accepted)
  }

  lemma MessagesGrow(stringify: Stringify, all: seq<Params>, params: Params)
    ensures Messages(stringify, all + [params]) == Messages(stringify, all) + [MessageOf(stringify, params)]
  {}

  lemma OutgoingAfterRequest(stringify: Stringify, params: Params, s: State)
    requires s.initialized && (s.next.Some? ==> s.busy)
    ensures Outgoing(OnRequest(stringify, params, s)) == s.posted + [MessageOf(stringify, params)]
  {}

  lemma PostedIsSubsequence(stringify: Stringify, s: State)
    requires IsSubsequence(Outgoing(s), Messages(stringify, s.accepted))
    ensures IsSubsequence(s.posted, Messages(stringify, s.accepted))
  {
    if s.next.Some? {
      SubsequencePrefix(Outgoing(s), Messages(stringify, s.accepted));
      assert Outgoing(s)[..|Outgoing(s)| - 1] == s.posted;
    } else {
      assert Outgoing(s) == s.posted;
    }
  }

  /** Requests that find the worker initialized replace the message that waits. */
  lemma RequestKeepsInv(stringify: Stringify, params: Params, s: State)
    requires s.initialized && (s.next.Some? ==> s.busy)
    requires IsSubsequence(Outgoing(s), Messages(stringify, s.accepted))
    ensures var s' := OnRequest(stringify, params, s);
            var out, all := Outgoing(s'), Messages(stringify, s'.accepted);
            IsSubsequence(out, all) && |out| > 0 && |all| > 0 && out[|out| - 1] == all[|all| - 1]
  {
    var s', message := OnRequest(stringify, params, s), MessageOf(stringify, params);
    assert s'.accepted == s.accepted + [params];
    OutgoingAfterRequest(stringify, params, s);
    MessagesGrow(stringify, s.accepted, params);
    PostedIsSubsequence(stringify, s);
    SubsequenceGrows(s.posted, Messages(stringify, s.accepted), message);
  }

  lemma CallbackKeepsOutgoing(s: State)
    ensures Outgoing(OnCallback(s)) == Outgoing(s)
  {}

  lemma RequestKeepsRest(stringify: Stringify, params: Params, s: State)
    ensures var s' := OnRequest(stringify, params, s);
            && Unanswered(s') - Unanswered(s) == (if s'.busy && !s.busy then 1 else 0)
            && (s.busy ==> s'.busy)
            && s'.timers + multiset(s'.accepted) == s.timers + multiset(s.accepted) + multiset{params}
  {}

  lemma RequestStepKeepsInv(stringify: Stringify, params: Params, s: State, base: State)
    requires Inv(stringify, base)
    requires s == base.(requested := s.requested, timers := s.timers)
    requires s.requested == s.timers + multiset(s.accepted) + multiset{params}
    ensures Inv(stringify, OnRequest(stringify, params, s))
  {
    RequestKeepsRest(stringify, params, s);
    if s.initialized {
      assert Outgoing(s) == Outgoing(base);
      RequestKeepsInv(stringify, params, s);
    }
  }

  lemma CallbackKeepsInv(stringify: Stringify, s: State)
    requires Inv(stringify, s) && Enabled(s, Callback)
    ensures Inv(stringify, Apply(stringify, s, Callback))
  {
    var s' := Apply(stringify, s, Callback);
    CallbackKeepsOutgoing(s.(answered := s.answered + 1));
    assert Outgoing(s') == Outgoing(s) && s'.accepted == s.accepted;
  }

  lemma TimerStepKeepsInv(stringify: Stringify, params: Params, s: State)
    requires Inv(stringify, s) && params in s.timers
    ensures Inv(stringify, Apply(stringify, s, TimerFires(params)))
  {
    var s' := s.(timers := s.timers - multiset{params});
    assert s'.timers + multiset{params} == s.timers;
    assert s'.requested == s'.timers + multiset(s'.accepted) + multiset{params};
    RequestStepKeepsInv(stringify, params, s', s);
  }

  lemma StepKeepsInv(stringify: Stringify, s: State, step: Step)
    requires Inv(stringify, s) && Enabled(s, step)
    ensures Inv(stringify, Apply(stringify, s, step))
  {
    match step
    case Initialized => assert Outgoing(s.(initialized := true)) == Outgoing(s);
    case Request(params) =>
      RequestStepKeepsInv(stringify, params, s.(requested := s.requested + multiset{params}), s);
    case TimerFires(params) => TimerStepKeepsInv(stringify, params, s);
    case Callback => CallbackKeepsInv(stringify, s);
  }

  // ---- Runs

  predicate Legal(stringify: Stringify, s: State, steps: seq<Step>)
    decreases |steps|
  {
    |steps| == 0 || (Enabled(s, steps[0]) && Legal(stringify, Apply(stringify, s, steps[0]), steps[1..]))
  }

  function Final(stringify: Stringify, s: State, steps: seq<Step>): State
    requires Legal(stringify, s, steps)
    decreases |steps|
  {
    if |steps| == 0 then s else Final(stringify, Apply(stringify, s, steps[0]), steps[1..])
  }

  lemma {:induction false} RunKeepsInv(stringify: Stringify, s: State, steps: seq<Step>)
    requires Inv(stringify, s) && Legal(stringify, s, steps)
    ensures Inv(stringify, Final(stringify, s, steps))
    decreases |steps|
  {
    if |steps| == 0 {
    } else {
      StepKeepsInv(stringify, s, steps[0]);
      RunKeepsInv(stringify, Apply(stringify, s, steps[0]), steps[1..]);
    }
  }

  /** In every interleaving: one message is in flight when busy and none otherwise, one waits
      only when busy, and what was posted is a subsequence of what was accepted. */
  lemma OneInFlight(stringify: Stringify, steps: seq<Step>)
    requires Legal(stringify, INITIAL, steps)
    ensures var s := Final(stringify, INITIAL, steps);
            && Unanswered(s) == (if s.busy then 1 else 0)
            && (s.next.Some? ==> s.busy)
            && IsSubsequence(s.posted, Messages(stringify, s.accepted))
  {
    RunKeepsInv(stringify, INITIAL, steps);
    PostedIsSubsequence(stringify, Final(stringify, INITIAL, steps));
  }

  /** What goes to the worker for a request: the JSON text, or, if the input could not be
      turned into JSON, that input itself. */
  predicate StandsFor(message: Message, input: Input) {
    message == if input.isError then Failed(input) else Text(input.json)
  }

  lemma {:induction false} SubsequenceMember(sub: seq<Message>, all: seq<Message>, i: nat)
    requires IsSubsequence(sub, all) && i < |sub|
    ensures sub[i] in all
    decreases |all|
  {
    var n, k := |sub|, |all|;
    if sub[n - 1] == all[k - 1] && IsSubsequence(sub[..n - 1], all[..k - 1]) {
      if i < n - 1 { SubsequenceMember(sub[..n - 1], all[..k - 1], i); }
    } else {
      SubsequenceMember(sub, all[..k - 1], i);
    }
  }

  /** Every message posted stands for a request that was accepted. */
  lemma {:induction false} PostedStandsForRequest(stringify: Stringify, steps: seq<Step>, i: nat)
    requires Legal(stringify, INITIAL, steps) && i < |Final(stringify, INITIAL, steps).posted|
    ensures var s := Final(stringify, INITIAL, steps);
            exists k :: 0 <= k < |s.accepted| && StandsFor(s.posted[i], stringify(s.accepted[k]))
  {
    var s := Final(stringify, INITIAL, steps);
    OneInFlight(stringify, steps);
    SubsequenceMember(s.posted, Messages(stringify, s.accepted), i);
    var k :| 0 <= k < |s.accepted| && Messages(stringify, s.accepted)[k] == s.posted[i];
    assert StandsFor(s.posted[i], stringify(s.accepted[k]));
  }

  /** Whenever the queue is idle, the last message posted is the last one accepted. */
  lemma LatestWins(stringify: Stringify, steps: seq<Step>)
    requires Legal(stringify, INITIAL, steps)
    ensures var s := Final(stringify, INITIAL, steps);
            !s.busy && |s.accepted| > 0 ==>
              |s.posted| > 0 && s.posted[|s.posted| - 1] == MessageOf(stringify, s.accepted[|s.accepted| - 1])
  {
    RunKeepsInv(stringify, INITIAL, steps);
  }

  /** No request is forgotten before the worker is ready: each is accepted or waits on a timer. */
  lemma RequestsAreAccountedFor(stringify: Stringify, steps: seq<Step>)
    requires Legal(stringify, INITIAL, steps)
    ensures var s := Final(stringify, INITIAL, steps);
            s.requested == s.timers + multiset(s.accepted) && (!s.initialized ==> s.posted == [])
  {
    RunKeepsInv(stringify, INITIAL, steps);
  }

  /** Left alone, the queue is idle after at most two answers, the last accepted job run. */
  lemma SettlesAfterTwoAnswers(stringify: Stringify, s: State)
    requires Inv(stringify, s) && s.busy
    ensures Enabled(s, Callback)
    ensures var s1 := Apply(stringify, s, Callback);
            if s.next.None? then !s1.busy
            else Enabled(s1, Callback)
                 && var s2 := Apply(stringify, s1, Callback);
                    !s2.busy && s2.posted == s.posted + [s.next.value]
                    && s.next.value == MessageOf(stringify, s.accepted[|s.accepted| - 1])
  {}

  lemma RunCons(stringify: Stringify, s: State, step: Step, steps: seq<Step>)
    requires Enabled(s, step) && Legal(stringify, Apply(stringify, s, step), steps)
    ensures Legal(stringify, s, [step] + steps)
    ensures Final(stringify, s, [step] + steps) == Final(stringify, Apply(stringify, s, step), steps)
  {
    assert ([step] + steps)[0] == step && ([step] + steps)[1..] == steps;
  }

  // ---- When the last request wins

  predicate RequestFree(steps: seq<Step>) {
    forall i :: 0 <= i < |steps| ==> !steps[i].Request?
  }

  /** If the steps make no request and end idle, the last message posted is that of `params`. */
  predicate EndsWith(stringify: Stringify, s: State, params: Params, steps: seq<Step>) {
    RequestFree(steps) && Legal(stringify, s, steps) && !Final(stringify, s, steps).busy ==>
      var posted := Final(stringify, s, steps).posted;
      |posted| > 0 && posted[|posted| - 1] == MessageOf(stringify, params)
  }

  /** Whatever the timers and the worker do after the request, it is the one that is run last. */
  ghost predicate RequestWins(stringify: Stringify, s: State, params: Params) {
    forall steps :: EndsWith(stringify, Apply(stringify, s, Request(params)), params, steps)
  }

  /** Every request that still waits on a timer asks for the same. */
  predicate TimersAskFor(stringify: Stringify, s: State, message: Message) {
    forall q :: q in s.timers ==> MessageOf(stringify, q) == message
  }

  predicate GoesOutLast(s: State, message: Message) {
    var out := Outgoing(s);
    |out| > 0 && out[|out| - 1] == message
  }

  lemma TimerKeepsLast(stringify: Stringify, s: State, q: Params, message: Message)
    requires s.initialized && (s.next.Some? ==> s.busy) && q in s.timers && TimersAskFor(stringify, s, message)
    ensures var s' := Apply(stringify, s, TimerFires(q));
            s'.initialized && TimersAskFor(stringify, s', message) && GoesOutLast(s', message)
  {
    OutgoingAfterRequest(stringify, q, s.(timers := s.timers - multiset{q}));
  }

  lemma CallbackKeepsLast(stringify: Stringify, s: State, message: Message)
    requires Enabled(s, Callback) && TimersAskFor(stringify, s, message) && GoesOutLast(s, message)
    ensures var s' := Apply(stringify, s, Callback);
            s'.initialized == s.initialized && TimersAskFor(stringify, s', message) && GoesOutLast(s', message)
  {
    CallbackKeepsOutgoing(s.(answered := s.answered + 1));
  }

  lemma StepKeepsLast(stringify: Stringify, s: State, step: Step, message: Message)
    requires Inv(stringify, s) && s.initialized && Enabled(s, step) && !step.Request?
    requires TimersAskFor(stringify, s, message) && GoesOutLast(s, message)
    ensures var s' := Apply(stringify, s, step);
            s'.initialized && TimersAskFor(stringify, s', message) && GoesOutLast(s', message)
  {
    if step.TimerFires? {
      TimerKeepsLast(stringify, s, step.params, message);
    } else if step.Callback? {
      CallbackKeepsLast(stringify, s, message);
    } else {
      assert Apply(stringify, s, step) == s;
    }
  }

  lemma {:induction false} RunKeepsLast(stringify: Stringify, s: State, steps: seq<Step>, message: Message)
    requires Inv(stringify, s) && s.initialized && Legal(stringify, s, steps) && RequestFree(steps)
    requires TimersAskFor(stringify, s, message) && GoesOutLast(s, message)
    ensures GoesOutLast(Final(stringify, s, steps), message) && Inv(stringify, Final(stringify, s, steps))
    decreases |steps|
  {
    if |steps| == 0 {
    } else {
      assert !steps[0].Request?;
      StepKeepsInv(stringify, s, steps[0]);
      StepKeepsLast(stringify, s, steps[0], message);
      RunKeepsLast(stringify, Apply(stringify, s, steps[0]), steps[1..], message);
    }
  }

  lemma RequestGoesOutLast(stringify: Stringify, s: State, params: Params)
    requires Inv(stringify, s) && s.initialized
    ensures var s' := Apply(stringify, s, Request(params));
            s'.initialized && s'.busy && s'.timers == s.timers && GoesOutLast(s', MessageOf(stringify, params))
  {
    OutgoingAfterRequest(stringify, params, s.(requested := s.requested + multiset{params}));
  }

  lemma SameTimersWin(stringify: Stringify, s: State, params: Params)
    requires Inv(stringify, s) && s.initialized && TimersAskFor(stringify, s, MessageOf(stringify, params))
    ensures RequestWins(stringify, s, params)
  {
    var s', message := Apply(stringify, s, Request(params)), MessageOf(stringify, params);
    StepKeepsInv(stringify, s, Request(params));
    RequestGoesOutLast(stringify, s, params);
    forall steps ensures EndsWith(stringify, s', params, steps) {
      if RequestFree(steps) && Legal(stringify, s', steps) {
        RunKeepsLast(stringify, s', steps, message);
        var end := Final(stringify, s', steps);
        assert !end.busy ==> Outgoing(end) == end.posted;
      }
    }
  }

  function TimerAndAnswers(q: Params): seq<Step> {
    [TimerFires(q)] + ([Callback] + ([Callback] + []))
  }

  /** The offending timer fires while the worker is busy, then the queue drains. */
  lemma TimerDisplaces(stringify: Stringify, s: State, q: Params)
    requires Inv(stringify, s) && s.initialized && s.busy && q in s.timers
    ensures Legal(stringify, s, TimerAndAnswers(q))
    ensures var end := Final(stringify, s, TimerAndAnswers(q));
            !end.busy && end.posted == s.posted + [MessageOf(stringify, q)]
  {
    var s1 := Apply(stringify, s, TimerFires(q));
    var s2 := Apply(stringify, s1, Callback);
    var s3 := Apply(stringify, s2, Callback);
    assert !s3.busy && s3.posted == s.posted + [MessageOf(stringify, q)];
    RunCons(stringify, s2, Callback, []);
    RunCons(stringify, s1, Callback, [Callback] + []);
    RunCons(stringify, s, TimerFires(q), [Callback] + ([Callback] + []));
  }

  /** The last request wins, whatever happens afterwards, exactly when no request for something
      else still waits on a timer. */
  lemma LastRequestWinsIff(stringify: Stringify, s: State, params: Params)
    requires Inv(stringify, s) && s.initialized
    ensures RequestWins(stringify, s, params) <==> TimersAskFor(stringify, s, MessageOf(stringify, params))
  {
    if TimersAskFor(stringify, s, MessageOf(stringify, params)) {
      SameTimersWin(stringify, s, params);
    } else {
      var q :| q in s.timers && MessageOf(stringify, q) != MessageOf(stringify, params);
      var s' := Apply(stringify, s, Request(params));
      StepKeepsInv(stringify, s, Request(params));
      RequestGoesOutLast(stringify, s, params);
      TimerDisplaces(stringify, s', q);
      assert !EndsWith(stringify, s', params, TimerAndAnswers(q));
    }
  }

  function LastRequest(steps: seq<Step>): Option<Params> {
    if |steps| == 0 then None
    else
      var last := LastRequest(steps[1..]);
      if last.None? && steps[0].Request? then Some(steps[0].params) else last
  }

  lemma {:induction false} NoLastRequest(steps: seq<Step>)
    ensures LastRequest(steps).None? <==> RequestFree(steps)
  {
    if |steps| == 0 {
    } else {
      NoLastRequest(steps[1..]);
      assert RequestFree(steps) <==> !steps[0].Request? && RequestFree(steps[1..]) by {
        if !steps[0].Request? && RequestFree(steps[1..]) {
          forall i | 0 <= i < |steps| ensures !steps[i].Request? { assert i > 0 ==> steps[i] == steps[1..][i - 1]; }
        }
      }
    }
  }

  /** If idle, the last message posted is that of the last request, if there was one. */
  predicate ShowsLast(stringify: Stringify, s: State, last: Option<Params>) {
    last.Some? && !s.busy ==>
      |s.posted| > 0 && s.posted[|s.posted| - 1] == MessageOf(stringify, last.value)
  }

  lemma RequestThenNone(stringify: Stringify, s: State, params: Params, rest: seq<Step>)
    requires Inv(stringify, s) && s.initialized && s.timers == multiset{}
    requires RequestFree(rest) && Legal(stringify, Apply(stringify, s, Request(params)), rest)
    ensures ShowsLast(stringify, Final(stringify, Apply(stringify, s, Request(params)), rest), Some(params))
  {
    LastRequestWinsIff(stringify, s, params);
    assert EndsWith(stringify, Apply(stringify, s, Request(params)), params, rest);
  }

  lemma {:induction false} LastRequestWinsFrom(stringify: Stringify, s: State, steps: seq<Step>)
    requires Inv(stringify, s) && s.initialized && s.timers == multiset{} && Legal(stringify, s, steps)
    ensures Final(stringify, s, steps).timers == multiset{}
    ensures ShowsLast(stringify, Final(stringify, s, steps), LastRequest(steps))
    decreases |steps|
  {
    if |steps| == 0 {
    } else {
      var step, rest := steps[0], steps[1..];
      StepKeepsInv(stringify, s, step);
      LastRequestWinsFrom(stringify, Apply(stringify, s, step), rest);
      NoLastRequest(rest);
      if step.Request? && LastRequest(rest).None? { RequestThenNone(stringify, s, step.params, rest); }
    }
  }

  /** Once the worker is initialized before anything is requested, no timer is ever set and,
      whenever the queue is idle, the last message posted is that of the last request made. */
  lemma LastRequestWins(stringify: Stringify, steps: seq<Step>)
    requires Legal(stringify, INITIAL, [Initialized] + steps)
    ensures var end := Final(stringify, INITIAL, [Initialized] + steps);
            end.timers == multiset{} && ShowsLast(stringify, end, LastRequest(steps))
  {
    assert ([Initialized] + steps)[1..] == steps;
    StepKeepsInv(stringify, INITIAL, Initialized);
    LastRequestWinsFrom(stringify, Apply(stringify, INITIAL, Initialized), steps);
  }

  function EarlyRequest(a: Params, b: Params): seq<Step> {
    [Request(a)] + ([Initialized] + ([Request(b)] + ([TimerFires(a)] + ([Callback] + ([Callback] + [])))))
  }

  /** Latest means latest accepted: a request made before the worker was ready is retried by
      its timer and can displace a later one. */
  lemma EarlyRequestCanWin(stringify: Stringify, a: Params, b: Params)
    ensures Legal(stringify, INITIAL, EarlyRequest(a, b))
    ensures var s := Final(stringify, INITIAL, EarlyRequest(a, b));
            !s.busy && s.posted == [MessageOf(stringify, b), MessageOf(stringify, a)]
  {
    var s0 := INITIAL;
    var s1 := Apply(stringify, s0, Request(a));
    var s2 := Apply(stringify, s1, Initialized);
    var s3 := Apply(stringify, s2, Request(b));
    var s4 := Apply(stringify, s3, TimerFires(a));
    var s5 := Apply(stringify, s4, Callback);
    var s6 := Apply(stringify, s5, Callback);
    assert s6.posted == [MessageOf(stringify, b), MessageOf(stringify, a)];
    RunCons(stringify, s5, Callback, []);
    RunCons(stringify, s4, Callback, [Callback] + []);
    RunCons(stringify, s3, TimerFires(a), [Callback] + ([Callback] + []));
    RunCons(stringify, s2, Request(b), [TimerFires(a)] + ([Callback] + ([Callback] + [])));
    RunCons(stringify, s1, Initialized, [Request(b)] + ([TimerFires(a)] + ([Callback] + ([Callback] + []))));
    RunCons(stringify, s0, Request(a),
            [Initialized] + ([Request(b)] + ([TimerFires(a)] + ([Callback] + ([Callback] + [])))));
  }

  // ---- The object

  class FSharpAnalysis {
    const stringify: Stringify
    var busy: bool
    var next: Option<Message>
    var initialized: bool
    var timers: multiset<Params>
    var posted: seq<Message>
    var answered: nat
    ghost var requested: multiset<Params>
    ghost var accepted: seq<Params>

    ghost function Snapshot(): State
      reads this
    {
      State(busy, next, initialized, timers, posted, answered, requested, accepted)
    }

    constructor (stringify: Stringify)
      ensures Snapshot() == INITIAL && this.stringify == stringify
    {
      this.stringify := stringify;
      busy, next, initialized := false, None, false;
      timers, posted, answered := multiset{}, [], 0;
      requested, accepted := multiset{}, [];
    }

    method OnInitialized()
      modifies this`initialized
      ensures Snapshot() == Apply(stringify, old(Snapshot()), Initialized)
    {
      initialized := true;
    }

    method RequestAnalysis(params: Params)
      modifies this
      ensures Snapshot() == OnRequest(stringify, params, old(Snapshot()))
    {
      if !initialized {
        timers := timers + multiset{params};
        return;
      }
      accepted := accepted + [params];
      var input := stringify(params);
      var message := if input.isError then Failed(input) else Text(input.json);
      if busy {
        next := Some(message);
      } else {
        posted := posted + [message];
        busy := true;
      }
    }

    /** A call from outside, and one by a timer. */
    method Call(params: Params)
      requires Inv(stringify, Snapshot())
      modifies this
      ensures Inv(stringify, Snapshot()) && Snapshot() == Apply(stringify, old(Snapshot()), Request(params))
    {
      StepKeepsInv(stringify, Snapshot(), Request(params));
      requested := requested + multiset{params};
      RequestAnalysis(params);
    }

    method FireTimer(params: Params)
      requires Inv(stringify, Snapshot()) && params in timers
      modifies this
      ensures Inv(stringify, Snapshot()) && Snapshot() == Apply(stringify, old(Snapshot()), TimerFires(params))
    {
      StepKeepsInv(stringify, Snapshot(), TimerFires(params));
      timers := timers - multiset{params};
      RequestAnalysis(params);
    }

    /** The worker answers. */
    method OnMessage()
      requires Inv(stringify, Snapshot()) && answered < |posted|
      modifies this
      ensures Inv(stringify, Snapshot()) && Snapshot() == Apply(stringify, old(Snapshot()), Callback)
    {
      ghost var s := Snapshot();
      answered := answered + 1;
      RunNext();
      StepKeepsInv(stringify, s, Callback);
    }

    /** Run the waiting message or mark not busy. */
    method RunNext()
      modifies this`busy, this`next, this`posted
      ensures Snapshot() == OnCallback(old(Snapshot()))
    {
      if next.None? {
        busy := false;
      } else {
        var params := next.value;
        next := None;
        posted := posted + [params];
      }
    }
  }
}
