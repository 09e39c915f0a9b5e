// Every run of a consumer of one partition: messages arrive, handlers are subscribed, messages
// are processed with whatever results, commits fail, the process crashes and resumes from the
// committed offset.
module ConsumerRuns {
  import opened Events
  import opened Consumer
  import opened Wrappers

  datatype Config = Config(fromFirstOffset: bool, validationOff: bool, maxRetries: int)

  // A message as it was processed: with the handlers then subscribed and what was answered.
  datatype Record = Record(offset: nat, msg: Message, handlers: set<string>, answers: Answers)

  // `origin` is where the group started the last time it had nothing committed. `session` lists
  // what the running process has processed, `history` what any process of the group has. `earlier`
  // are the dead letters of processes that crashed.
  datatype State = State(
    log: seq<Message>, loop: LoopState, origin: nat,
    session: seq<Record>, history: seq<Record>, earlier: seq<FailedMessage>)

  datatype Step =
    | Arrive(msg: Message)
    | Subscribe(eventType: string)
    | Turn(answers: Answers)
    | Crash

  function Fresh(position: nat, committed: Option<nat>): LoopState {
    LoopState(position, committed, {}, None, [], 0)
  }

  function Init(config: Config): State {
    State([], Fresh(0, None), 0, [], [], [])
  }

  // Where the group resumes: at the committed offset, or, with none, where the configuration says.
  function StartPosition(config: Config, log: seq<Message>, committed: Option<nat>): nat {
    match committed
    case Some(offset) => offset
    case None => if config.fromFirstOffset then 0 else |log|
  }

  // A crash loses the counters and the subscriptions of the process.
  function Next(config: Config, s: State, step: Step): State {
    match step
    case Arrive(msg) => s.(log := s.log + [msg])
    case Subscribe(eventType) => s.(loop := s.loop.(handlers := s.loop.handlers + {eventType}))
    case Turn(answers) =>
      if s.loop.position >= |s.log| then s
      else
        var r := Record(s.loop.position, s.log[s.loop.position], s.loop.handlers, answers);
        s.(loop := Process(s.log, s.loop, config.validationOff, config.maxRetries, answers),
           session := s.session + [r], history := s.history + [r])
    case Crash =>
      var start := StartPosition(config, s.log, s.loop.committed);
      s.(loop := Fresh(start, s.loop.committed), origin := if s.loop.committed.None? then start else s.origin,
         session := [], earlier := s.earlier + s.loop.deadLetters)
  }

  function Run(config: Config, s: State, steps: seq<Step>): State
    decreases |steps|
  {
    if steps == [] then s else Run(config, Next(config, s, steps[0]), steps[1..])
  }

  // Every message any process of the group gave up on.
  function GivenUp(s: State): seq<FailedMessage> { s.earlier + s.loop.deadLetters }

  // ---- What a record says ------------------------------------------------------------------------------

  function Result(config: Config, r: Record): Outcome {
    OutcomeOf(r.msg, r.handlers, config.validationOff, config.maxRetries, r.answers)
  }

  predicate HadHandler(r: Record) { r.msg.event.Some? && r.msg.event.value.typ in r.handlers }

  ghost predicate SomeAttemptSucceeds(config: Config, answers: Answers) {
    exists n :: 1 <= n <= config.maxRetries && answers.handlerOk(n)
  }

  // What has to have become of a message: it had no handler, or a handler attempt within the
  // limit succeeded, or it was given up on, with the type and the attempts made.
  ghost predicate Settled(config: Config, givenUp: seq<FailedMessage>, r: Record) {
    if r.msg.event.None? then FailedMessage(r.offset, "", 0) in givenUp
    else
      var typ := r.msg.event.value.typ;
      if typ !in r.handlers then true
      else if !config.validationOff && !r.answers.valid then FailedMessage(r.offset, typ, 0) in givenUp
      else SomeAttemptSucceeds(config, r.answers) || FailedMessage(r.offset, typ, config.maxRetries) in givenUp
  }

  lemma SettledIff(config: Config, givenUp: seq<FailedMessage>, r: Record)
    ensures Settled(config, givenUp, r) <==
      (DeadLettered(Result(config, r)) ==>
        DeadLetterOf(r.offset, r.msg, Result(config, r), config.maxRetries) in givenUp)
  {
    var n := FirstSuccess(r.answers.handlerOk, 1, config.maxRetries);
    assert n <= config.maxRetries ==> r.answers.handlerOk(n);
    hide FirstSuccess;
  }

  // ---- The invariant ----------------------------------------------------------------------------------

  datatype Kind = Succeeded | Failed | WithHandler | Lost

  predicate IsOf(config: Config, kind: Kind, r: Record) {
    match kind
    case Succeeded => Result(config, r).Handled?
    case Failed => Result(config, r).Invalid? || Result(config, r).Exhausted?
    case WithHandler => HadHandler(r)
    case Lost => DeadLettered(Result(config, r))
  }

  function Count(config: Config, kind: Kind, records: seq<Record>): nat {
    if records == [] then 0
    else
      Count(config, kind, records[..|records| - 1]) + if IsOf(config, kind, records[|records| - 1]) then 1 else 0
  }

  function CallLimit(config: Config): nat {
    if config.maxRetries < 0 then 0 else config.maxRetries
  }

  ghost predicate Processed(history: seq<Record>, offset: nat) {
    exists i :: 0 <= i < |history| && history[i].offset == offset
  }

  function MessagesOk(h: Option<Health>): nat { if h.None? then 0 else h.value.messagesOk }

  function MessagesFailed(h: Option<Health>): nat { if h.None? then 0 else h.value.messagesFailed }

  ghost predicate OffsetsInv(config: Config, s: State) {
    && s.origin <= s.loop.position <= |s.log|
    && (s.loop.committed.Some? ==> s.origin <= s.loop.committed.value <= s.loop.position)
    && (config.fromFirstOffset ==> s.origin == 0)
  }

  // Nothing before the position was skipped, and what was given up on is among the dead letters.
  ghost predicate HistoryInv(config: Config, s: State) {
    && (forall o: nat :: s.origin <= o < s.loop.position ==> Processed(s.history, o))
    && (forall i :: 0 <= i < |s.history| ==> RecordInv(config, s.log, GivenUp(s), s.history[i]))
    && (forall d :: d in GivenUp(s) ==> LostIn(config, s.history, d))
  }

  // The dead letter is that of a message whose processing came to it.
  ghost predicate LostIn(config: Config, history: seq<Record>, d: FailedMessage) {
    exists i :: 0 <= i < |history| && IsDeadLetterOf(config, history[i], d)
  }

  predicate IsDeadLetterOf(config: Config, r: Record, d: FailedMessage) {
    DeadLettered(Result(config, r)) && d == DeadLetterOf(r.offset, r.msg, Result(config, r), config.maxRetries)
  }

  // Why the message was given up on, and what the dead letter says.
  ghost predicate FailedAs(config: Config, r: Record, d: FailedMessage) {
    match r.msg.event
    case None => d == FailedMessage(r.offset, "", 0)
    case Some(event) =>
      && event.typ in r.handlers
      && if !config.validationOff && !r.answers.valid then d == FailedMessage(r.offset, event.typ, 0)
         else !SomeAttemptSucceeds(config, r.answers) && d == FailedMessage(r.offset, event.typ, config.maxRetries)
  }

  ghost predicate RecordInv(config: Config, log: seq<Message>, givenUp: seq<FailedMessage>, r: Record) {
    && r.offset < |log| && log[r.offset] == r.msg
    && (DeadLettered(Result(config, r)) ==>
      DeadLetterOf(r.offset, r.msg, Result(config, r), config.maxRetries) in givenUp)
  }

  // The running process walks the log without gaps.
  ghost predicate SessionInv(s: State) {
    && |s.session| <= |s.history| && s.session == s.history[|s.history| - |s.session|..]
    && forall i :: 0 <= i < |s.session| ==> s.session[i].offset == s.loop.position - |s.session| + i
  }

  ghost predicate CountersInv(config: Config, s: State) {
    && MessagesOk(s.loop.health) == Count(config, Succeeded, s.session)
    && MessagesFailed(s.loop.health) == Count(config, Failed, s.session)
    && |s.loop.deadLetters| == Count(config, Lost, s.session)
    && s.loop.handlerCalls <= CallLimit(config) * |s.session|
  }

  ghost predicate Inv(config: Config, s: State) {
    OffsetsInv(config, s) && HistoryInv(config, s) && SessionInv(s) && CountersInv(config, s)
  }

  lemma NextKeepsInv(config: Config, s: State, step: Step)
    requires Inv(config, s)
    ensures Inv(config, Next(config, s, step))
  {
    hide HistoryInv, Process;
    match step
    case Arrive(msg) => ArriveKeepsHistory(config, s, msg);
    case Subscribe(eventType) => SubscribeKeepsHistory(config, s, eventType);
    case Crash => CrashKeepsHistory(config, s);
    case Turn(answers) =>
      if s.loop.position < |s.log| {
        TurnKeepsOffsets(config, s, answers);
        TurnKeepsHistory(config, s, answers);
        TurnKeepsSession(config, s, answers);
        TurnKeepsCounters(config, s, answers);
      }
  }

  lemma ArriveKeepsHistory(config: Config, s: State, msg: Message)
    requires OffsetsInv(config, s) && HistoryInv(config, s)
    ensures HistoryInv(config, Next(config, s, Arrive(msg)))
  {
    hide Result;
  }

  lemma SubscribeKeepsHistory(config: Config, s: State, eventType: string)
    requires HistoryInv(config, s)
    ensures HistoryInv(config, Next(config, s, Subscribe(eventType)))
  {
    assert GivenUp(Next(config, s, Subscribe(eventType))) == GivenUp(s);
    hide RecordInv, LostIn;
  }

  lemma CrashKeepsHistory(config: Config, s: State)
    requires OffsetsInv(config, s) && HistoryInv(config, s)
    ensures HistoryInv(config, Next(config, s, Crash))
  {
    var t := Next(config, s, Crash);
    assert GivenUp(t) == GivenUp(s);
    hide RecordInv;
    forall o: nat | t.origin <= o < t.loop.position ensures Processed(t.history, o) {
      assert Processed(s.history, o);
    }
  }

  lemma TurnKeepsOffsets(config: Config, s: State, answers: Answers)
    requires OffsetsInv(config, s) && s.loop.position < |s.log|
    ensures OffsetsInv(config, Next(config, s, Turn(answers)))
  {
    hide OutcomeOf, Tally, HandlerCalls;
  }

  lemma TurnKeepsHistory(config: Config, s: State, answers: Answers)
    requires HistoryInv(config, s) && s.loop.position < |s.log|
    ensures HistoryInv(config, Next(config, s, Turn(answers)))
  {
    var t := Next(config, s, Turn(answers));
    var r := t.history[|s.history|];
    assert t.history == s.history + [r] && t.loop.position == s.loop.position + 1;
    TurnGivesUp(config, s, answers);
    hide Process, Next, GivenUp;
    forall o: nat | s.origin <= o < t.loop.position ensures Processed(t.history, o) {
      if o < s.loop.position {
        assert Processed(s.history, o);
        var i :| 0 <= i < |s.history| && s.history[i].offset == o;
        assert t.history[i].offset == o;
      } else {
        assert t.history[|s.history|].offset == o;
      }
    }
    forall i | 0 <= i < |t.history| ensures RecordInv(config, t.log, GivenUp(t), t.history[i]) {
      if i < |s.history| {
        assert RecordInv(config, s.log, GivenUp(s), s.history[i]);
        hide Result;
      }
    }
    forall d | d in GivenUp(t) ensures LostIn(config, t.history, d) {
      if d in GivenUp(s) {
        assert LostIn(config, s.history, d);
        var i :| 0 <= i < |s.history| && IsDeadLetterOf(config, s.history[i], d);
        assert t.history[i] == s.history[i];
      } else {
        assert t.history[|s.history|] == r;
      }
    }
  }

  lemma TurnGivesUp(config: Config, s: State, answers: Answers)
    requires s.loop.position < |s.log|
    ensures var t := Next(config, s, Turn(answers));
      var r := Record(s.loop.position, s.log[s.loop.position], s.loop.handlers, answers);
      && RecordInv(config, t.log, GivenUp(t), r) && t.log == s.log && t.origin == s.origin
      && (forall d :: d in GivenUp(s) ==> d in GivenUp(t))
      && forall d :: d in GivenUp(t) && d !in GivenUp(s) ==> IsDeadLetterOf(config, r, d)
  {
    hide OutcomeOf, Tally, HandlerCalls;
  }

  lemma TurnKeepsSession(config: Config, s: State, answers: Answers)
    requires SessionInv(s) && s.loop.position < |s.log|
    ensures SessionInv(Next(config, s, Turn(answers)))
  {
    hide OutcomeOf, Tally, HandlerCalls;
    var t := Next(config, s, Turn(answers));
    assert t.session == t.history[|t.history| - |t.session|..];
  }

  lemma TurnKeepsCounters(config: Config, s: State, answers: Answers)
    requires CountersInv(config, s) && s.loop.position < |s.log|
    ensures CountersInv(config, Next(config, s, Turn(answers)))
  {
    var t := Next(config, s, Turn(answers));
    var r := Record(s.loop.position, s.log[s.loop.position], s.loop.handlers, answers);
    TurnCounts(config, s, answers);
    TurnCalls(config, s, answers);
    assert (s.session + [r])[..|s.session|] == s.session;
    hide Next, IsOf, CallLimit;
    OnceMore(CallLimit(config), |s.session|);
  }

  lemma OnceMore(limit: nat, n: nat)
    ensures limit * (n + 1) == limit * n + limit
  {
  }

  lemma TurnCounts(config: Config, s: State, answers: Answers)
    requires s.loop.position < |s.log|
    ensures var t := Next(config, s, Turn(answers));
      var r := Record(s.loop.position, s.log[s.loop.position], s.loop.handlers, answers);
      && t.session == s.session + [r]
      && MessagesOk(t.loop.health) == MessagesOk(s.loop.health) + (if IsOf(config, Succeeded, r) then 1 else 0)
      && MessagesFailed(t.loop.health) == MessagesFailed(s.loop.health) + (if IsOf(config, Failed, r) then 1 else 0)
      && |t.loop.deadLetters| == |s.loop.deadLetters| + (if IsOf(config, Lost, r) then 1 else 0)
  {
    hide OutcomeOf;
  }

  // One turn makes as many calls as attempts up to the first success, at most the limit, and none
  // when nothing is delivered.
  lemma TurnCalls(config: Config, s: State, answers: Answers)
    requires s.loop.position < |s.log|
    ensures var r := Record(s.loop.position, s.log[s.loop.position], s.loop.handlers, answers);
      var calls := Next(config, s, Turn(answers)).loop.handlerCalls - s.loop.handlerCalls;
      && 0 <= calls <= CallLimit(config)
      && (calls > 0 ==> HadHandler(r) && (config.validationOff || answers.valid))
      && (forall k :: 1 <= k < calls ==> !answers.handlerOk(k))
      && (0 < calls < CallLimit(config) ==> answers.handlerOk(calls))
  {
    hide FirstSuccess;
  }

  lemma {:induction false} EveryRunKeepsInv(config: Config, s: State, steps: seq<Step>)
    requires Inv(config, s)
    ensures Inv(config, Run(config, s, steps))
    decreases |steps|
  {
    if steps != [] {
      NextKeepsInv(config, s, steps[0]);
      EveryRunKeepsInv(config, Next(config, s, steps[0]), steps[1..]);
    }
  }

  // ---- Records are turns of the run ----------------------------------------------------------------------

  // Step k of the run processed this record.
  ghost predicate IsTurn(config: Config, steps: seq<Step>, k: nat, r: Record) {
    && k < |steps| && steps[k] == Turn(r.answers)
    && var t := Run(config, Init(config), steps[..k]);
       t.loop.position == r.offset < |t.log| && t.log[r.offset] == r.msg && t.loop.handlers == r.handlers
  }

  lemma {:induction false} RunLast(config: Config, s: State, steps: seq<Step>, last: Step)
    ensures Run(config, s, steps + [last]) == Next(config, Run(config, s, steps), last)
    decreases |steps|
  {
    hide Next;
    if steps == [] {
      assert (steps + [last])[1..] == [];
    } else {
      assert (steps + [last])[1..] == steps[1..] + [last];
      RunLast(config, Next(config, s, steps[0]), steps[1..], last);
    }
  }

  lemma NextAppends(config: Config, s: State, step: Step, r: Record)
    requires r in Next(config, s, step).history && r !in s.history
    ensures s.loop.position < |s.log| && step == Turn(r.answers)
    ensures r == Record(s.loop.position, s.log[s.loop.position], s.loop.handlers, r.answers)
  {
    hide Process;
  }

  lemma {:induction false} RecordsAreTurns(config: Config, steps: seq<Step>, r: Record) returns (k: nat)
    requires r in Run(config, Init(config), steps).history
    ensures IsTurn(config, steps, k, r)
    decreases |steps|
  {
    assert steps != [];
    var n := |steps| - 1;
    var init := steps[..n];
    assert steps == init + [steps[n]];
    RunLast(config, Init(config), init, steps[n]);
    var before := Run(config, Init(config), init);
    hide Next, Run;
    if r in before.history {
      k := RecordsAreTurns(config, init, r);
      assert steps[..k] == init[..k];
    } else {
      NextAppends(config, before, steps[n], r);
      return n;
    }
  }

  // ---- What it gives ------------------------------------------------------------------------------------

  // Nothing is lost: in every reachable state each message from the origin (the start of the log,
  // when the group reads from the first offset) up to the committed offset was the turn of some
  // step of the run, which found no handler for it, or handled it within the retry limit, or gave
  // it up to the dead letters.
  lemma CommittedMessagesWereProcessed(config: Config, steps: seq<Step>, offset: nat)
    requires var s := Run(config, Init(config), steps);
      s.loop.committed.Some? && s.origin <= offset < s.loop.committed.value
    ensures var s := Run(config, Init(config), steps);
      exists k: nat, r :: IsTurn(config, steps, k, r) && r.offset == offset && Settled(config, GivenUp(s), r)
    ensures config.fromFirstOffset ==> Run(config, Init(config), steps).origin == 0
  {
    hide *;
    Reachable(config, steps);
    var r := CommittedRecord(config, Run(config, Init(config), steps), offset);
    var k := RecordsAreTurns(config, steps, r);
    assert IsTurn(config, steps, k, r);
  }

  lemma Reachable(config: Config, steps: seq<Step>)
    ensures Inv(config, Run(config, Init(config), steps))
  {
    hide *;
    InitInv(config);
    EveryRunKeepsInv(config, Init(config), steps);
  }

  lemma InitInv(config: Config)
    ensures Inv(config, Init(config))
  {
    assert GivenUp(Init(config)) == [];
    hide RecordInv, LostIn, Processed;
  }

  lemma CommittedRecord(config: Config, s: State, offset: nat) returns (r: Record)
    requires Inv(config, s) && s.loop.committed.Some? && s.origin <= offset < s.loop.committed.value
    ensures r in s.history && r.offset == offset && Settled(config, GivenUp(s), r)
    ensures config.fromFirstOffset ==> s.origin == 0
  {
    hide GivenUp, LostIn, Result, Settled, SessionInv, CountersInv;
    assert Processed(s.history, offset);
    var i :| 0 <= i < |s.history| && s.history[i].offset == offset;
    r := s.history[i];
    assert RecordInv(config, s.log, GivenUp(s), r);
    hide HistoryInv;
    SettledIff(config, GivenUp(s), r);
  }

  // Nothing else is given up on: each dead letter is that of a turn of the run which did not decode
  // the message, found it invalid, or failed in every attempt.
  lemma OnlyFailuresAreGivenUp(config: Config, steps: seq<Step>, d: FailedMessage)
    requires d in GivenUp(Run(config, Init(config), steps))
    ensures exists k: nat, r :: IsTurn(config, steps, k, r) && FailedAs(config, r, d)
  {
    hide *;
    Reachable(config, steps);
    var r := LostRecord(config, Run(config, Init(config), steps), d);
    DeadLetterSaysWhy(config, r, d);
    var k := RecordsAreTurns(config, steps, r);
    assert IsTurn(config, steps, k, r);
  }

  lemma LostRecord(config: Config, s: State, d: FailedMessage) returns (r: Record)
    requires Inv(config, s) && d in GivenUp(s)
    ensures r in s.history && IsDeadLetterOf(config, r, d)
  {
    hide RecordInv, GivenUp, IsDeadLetterOf, CountersInv, SessionInv, OffsetsInv;
    assert LostIn(config, s.history, d);
    var i :| 0 <= i < |s.history| && IsDeadLetterOf(config, s.history[i], d);
    return s.history[i];
  }

  lemma DeadLetterSaysWhy(config: Config, r: Record, d: FailedMessage)
    requires IsDeadLetterOf(config, r, d)
    ensures FailedAs(config, r, d)
  {
    var n := FirstSuccess(r.answers.handlerOk, 1, config.maxRetries);
    assert forall k :: 1 <= k < n ==> !r.answers.handlerOk(k);
    hide FirstSuccess;
  }

  // The counters count exactly the messages that decoded and had a handler when their turn came,
  // since the process started.
  lemma CountersCountHandledTypes(config: Config, steps: seq<Step>)
    ensures var s := Run(config, Init(config), steps);
      MessagesOk(s.loop.health) + MessagesFailed(s.loop.health) == Count(config, WithHandler, s.session)
  {
    CountersInState(config, Run(config, Init(config), steps)) by { Reachable(config, steps); }
    hide *;
  }

  lemma CountersInState(config: Config, s: State)
    requires Inv(config, s)
    ensures MessagesOk(s.loop.health) + MessagesFailed(s.loop.health) == Count(config, WithHandler, s.session)
    ensures s.loop.handlerCalls <= CallLimit(config) * |s.session|
  {
    hide HistoryInv, SessionInv, OffsetsInv, Count;
    CountSplits(config, s.session);
  }

  lemma {:induction false} CountSplits(config: Config, records: seq<Record>)
    ensures Count(config, Succeeded, records) + Count(config, Failed, records) == Count(config, WithHandler, records)
    decreases |records|
  {
    if records != [] { CountSplits(config, records[..|records| - 1]); }
  }

  // No step of a run makes more handler calls than the limit, and no process more than the limit
  // for each message it has processed.
  lemma HandlerCallsAreBounded(config: Config, steps: seq<Step>, k: nat)
    requires k < |steps| && steps[k].Turn?
    ensures Run(config, Init(config), steps[..k + 1]).loop.handlerCalls
         <= Run(config, Init(config), steps[..k]).loop.handlerCalls + CallLimit(config)
    ensures var s := Run(config, Init(config), steps); s.loop.handlerCalls <= CallLimit(config) * |s.session|
  {
    hide *;
    CountersInState(config, Run(config, Init(config), steps)) by { Reachable(config, steps); }
    assert steps[..k + 1] == steps[..k] + [steps[k]];
    RunLast(config, Init(config), steps[..k], steps[k]);
    StepCalls(config, Run(config, Init(config), steps[..k]), steps[k]);
  }

  lemma StepCalls(config: Config, s: State, step: Step)
    requires step.Turn?
    ensures Next(config, s, step).loop.handlerCalls <= s.loop.handlerCalls + CallLimit(config)
  {
    hide Process, CallLimit;
    if s.loop.position < |s.log| { TurnCalls(config, s, step.answers); }
  }

  // ---- The loop is a run ---------------------------------------------------------------------------------

  // The steps that happenings around the loop come to: failed fetches are none, and with no message
  // left the loop stays where it is.
  function StepsOf(log: seq<Message>, position: nat, happenings: seq<Happening>): seq<Step>
    decreases |happenings|
  {
    if happenings == [] then []
    else
      var rest := happenings[1..];
      match happenings[0]
      case FetchFailed => StepsOf(log, position, rest)
      case Subscribed(eventType) => [Subscribe(eventType)] + StepsOf(log, position, rest)
      case Fetched(answers) =>
        if position >= |log| then [] else [Turn(answers)] + StepsOf(log, position + 1, rest)
  }

  lemma RunCons(config: Config, s: State, step: Step, steps: seq<Step>)
    ensures Run(config, s, [step] + steps) == Run(config, Next(config, s, step), steps)
  {
    hide Next;
    assert ([step] + steps)[1..] == steps;
  }

  // The loop of one process does what a run of those steps does.
  lemma {:induction false} LoopIsARun(config: Config, s: State, happenings: seq<Happening>)
    ensures Run(config, s, StepsOf(s.log, s.loop.position, happenings)).loop
         == Loop(s.log, s.loop, config.validationOff, config.maxRetries, happenings)
    decreases |happenings|
  {
    if happenings != [] {
      var rest := happenings[1..];
      match happenings[0] {
        case FetchFailed => LoopIsARun(config, s, rest);
        case Subscribed(eventType) =>
          var t := Next(config, s, Subscribe(eventType));
          LoopIsARun(config, t, rest);
          RunCons(config, s, Subscribe(eventType), StepsOf(s.log, s.loop.position, rest));
        case Fetched(answers) =>
          if s.loop.position < |s.log| {
            var t := Next(config, s, Turn(answers));
            assert t.log == s.log && t.loop.position == s.loop.position + 1 by { hide OutcomeOf, Tally, HandlerCalls; }
            assert t.loop == Process(s.log, s.loop, config.validationOff, config.maxRetries, answers);
            LoopIsARun(config, t, rest);
            RunCons(config, s, Turn(answers), StepsOf(s.log, s.loop.position + 1, rest));
          }
      }
    }
  }

  ghost predicate NoCrash(steps: seq<Step>, from: nat) {
    forall k :: from <= k < |steps| ==> !steps[k].Crash?
  }

  // An event type has a handler exactly when it was subscribed since the last crash.
  lemma {:induction false} HandledTypesIff(config: Config, s: State, steps: seq<Step>, eventType: string)
    ensures eventType in Run(config, s, steps).loop.handlers <==>
      || (eventType in s.loop.handlers && NoCrash(steps, 0))
      || exists k: nat :: k < |steps| && steps[k] == Subscribe(eventType) && NoCrash(steps, k)
    decreases |steps|
  {
    if steps != [] {
      var t, rest := Next(config, s, steps[0]), steps[1..];
      HandledTypesIff(config, t, rest, eventType);
      assert eventType in t.loop.handlers <==>
        steps[0] == Subscribe(eventType) || (eventType in s.loop.handlers && !steps[0].Crash?) by {
        hide OutcomeOf, Tally, HandlerCalls;
      }
      hide Next, Run;
      assert forall k :: 0 <= k < |rest| ==> rest[k] == steps[k + 1];
      forall k: nat | k < |rest| ensures NoCrash(rest, k) <==> NoCrash(steps, k + 1) {
        assert forall j :: k < j + 1 <= |rest| ==> steps[j + 1] == rest[j];
      }
      assert NoCrash(steps, 0) <==> !steps[0].Crash? && NoCrash(rest, 0) by {
        assert forall j :: 0 < j < |steps| ==> steps[j] == rest[j - 1];
      }
    }
  }
}
