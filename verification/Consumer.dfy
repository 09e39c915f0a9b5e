// The fetch, decode, validate, retry, dead-letter, commit loop of one topic (kafka/consumer.go).
module Consumer {
  import opened Events
  import opened Wrappers

  // What became of one fetched message.
  datatype Outcome =
    | Undecodable
    | NoHandler
    | Invalid
    | Exhausted
    | Handled(attempts: nat)

  // What the environment answers while one message is processed: the verdict of the schema
  // check, the result of each handler attempt (1, 2, ...), and whether the broker takes the commit.
  datatype Answers = Answers(valid: bool, handlerOk: nat -> bool, commitApplied: bool)

  datatype FailedMessage = FailedMessage(offset: nat, eventType: string, retryCount: int)

  datatype Health = Health(lastOffset: nat, lastEventType: string, messagesOk: nat, messagesFailed: nat)

  // ---- What processing one message amounts to -------------------------------------------------------

  // The first attempt that succeeds, or max + 1.
  function FirstSuccess(ok: nat -> bool, attempt: nat, max: int): (n: nat)
    ensures attempt <= n
    ensures forall k :: attempt <= k < n ==> !ok(k)
    ensures n <= max ==> ok(n)
    ensures attempt <= max + 1 ==> n <= max + 1
    decreases max + 1 - attempt
  {
    if attempt > max || ok(attempt) then attempt else FirstSuccess(ok, attempt + 1, max)
  }

  function OutcomeOf(msg: Message, handlers: set<string>, validationOff: bool, maxRetries: int, a: Answers): Outcome {
    match msg.event
    case None => Undecodable
    case Some(event) =>
      if event.typ !in handlers then NoHandler
      else if !validationOff && !a.valid then Invalid
      else
        var n := FirstSuccess(a.handlerOk, 1, maxRetries);
        if n <= maxRetries then Handled(n) else Exhausted
  }

  predicate DeadLettered(o: Outcome) { o.Undecodable? || o.Invalid? || o.Exhausted? }

  predicate Counted(o: Outcome) { o.Invalid? || o.Exhausted? || o.Handled? }

  function EventType(msg: Message): string {
    match msg.event case None => "" case Some(event) => event.typ
  }

  function DeadLetterOf(offset: nat, msg: Message, o: Outcome, maxRetries: int): FailedMessage {
    FailedMessage(offset, EventType(msg), if o.Exhausted? then maxRetries else 0)
  }

  function HandlerCalls(o: Outcome, maxRetries: int): nat {
    match o
    case Handled(n) => n
    case Exhausted => if maxRetries < 0 then 0 else maxRetries
    case _ => 0
  }

  function Tally(h: Option<Health>, offset: nat, msg: Message, o: Outcome): Option<Health> {
    if !Counted(o) then h
    else
      var (ok, failed) := if h.None? then (0, 0) else (h.value.messagesOk, h.value.messagesFailed);
      Some(if o.Handled? then Health(offset, EventType(msg), ok + 1, failed)
           else Health(offset, EventType(msg), ok, failed + 1))
  }

  // ---- The loop ----------------------------------------------------------------------------------------

  // What happens around one turn of the loop: a fetch fails, a handler is subscribed by another
  // goroutine, or a message is fetched and the environment answers.
  datatype Happening = FetchFailed | Subscribed(eventType: string) | Fetched(answers: Answers)

  // A partition as one member of the consumer group sees it.
  class Reader {
    const log: seq<Message>
    var position: nat
    var committed: Option<nat>

    constructor (log: seq<Message>, position: nat, committed: Option<nat>)
      ensures this.log == log && this.position == position && this.committed == committed
    {
      this.log := log;
      this.position := position;
      this.committed := committed;
    }

    // Committing a message moves the group past it.
    method CommitMessages(offset: nat, applied: bool)
      modifies this`committed
      ensures committed == if applied then Some(offset + 1) else old(committed)
    {
      if applied { committed := Some(offset + 1); }
    }
  }

  // What one run of the loop leaves behind. `deadLetters` are the messages given up on.
  datatype LoopState = LoopState(
    position: nat, committed: Option<nat>, handlers: set<string>, health: Option<Health>,
    deadLetters: seq<FailedMessage>, handlerCalls: nat)

  function Process(log: seq<Message>, s: LoopState, validationOff: bool, maxRetries: int, a: Answers): LoopState
    requires s.position < |log|
  {
    var offset, msg := s.position, log[s.position];
    var o := OutcomeOf(msg, s.handlers, validationOff, maxRetries, a);
    LoopState(
      offset + 1,
      if a.commitApplied then Some(offset + 1) else s.committed,
      s.handlers,
      Tally(s.health, offset, msg, o),
      if DeadLettered(o) then s.deadLetters + [DeadLetterOf(offset, msg, o, maxRetries)] else s.deadLetters,
      s.handlerCalls + HandlerCalls(o, maxRetries))
  }

  // A failed fetch is retried; with no message left the fetch blocks until the context ends.
  function Loop(
      log: seq<Message>, s: LoopState, validationOff: bool, maxRetries: int, happenings: seq<Happening>): LoopState
    decreases |happenings|
  {
    if happenings == [] then s
    else
      var rest := happenings[1..];
      match happenings[0]
      case FetchFailed => Loop(log, s, validationOff, maxRetries, rest)
      case Subscribed(eventType) => Loop(log, s.(handlers := s.handlers + {eventType}), validationOff, maxRetries, rest)
      case Fetched(answers) =>
        if s.position >= |log| then s
        else Loop(log, Process(log, s, validationOff, maxRetries, answers), validationOff, maxRetries, rest)
  }

  class KafkaConsumer {
    const maxRetries: int
    const validationOff: bool
    const hasDeadLetterFunc: bool
    var handlers: set<string>
    var health: map<string, Health>
    var deadLetters: seq<FailedMessage>   // given up on
    var handedOn: seq<FailedMessage>      // handed to the dead-letter function
    var handlerCalls: nat

    constructor (maxRetries: int, validationOff: bool, hasDeadLetterFunc: bool)
      ensures this.maxRetries == (if maxRetries == 0 then 3 else maxRetries) && this.validationOff == validationOff
      ensures this.hasDeadLetterFunc == hasDeadLetterFunc
      ensures handlers == {} && health == map[] && deadLetters == handedOn == [] && handlerCalls == 0
    {
      this.maxRetries := if maxRetries == 0 then 3 else maxRetries;
      this.validationOff, this.hasDeadLetterFunc := validationOff, hasDeadLetterFunc;
      handlers, health, deadLetters, handedOn, handlerCalls := {}, map[], [], [], 0;
    }

    function HealthOf(topic: string): Option<Health>
      reads this`health
    {
      if topic in health then Some(health[topic]) else None
    }

    ghost function State(topic: string, reader: Reader): LoopState
      reads this, reader
    {
      LoopState(reader.position, reader.committed, handlers, HealthOf(topic), deadLetters, handlerCalls)
    }

    // Every dead letter reaches the dead-letter function, when there is one.
    ghost predicate HandsOn()
      reads this`deadLetters, this`handedOn
    {
      handedOn == if hasDeadLetterFunc then deadLetters else []
    }

    method Subscribe(eventType: string)
      modifies this`handlers
      ensures handlers == old(handlers) + {eventType}
    {
      handlers := handlers + {eventType};
    }

    method SendToDeadLetter(offset: nat, eventType: string, retryCount: int)
      requires HandsOn()
      modifies this`deadLetters, this`handedOn
      ensures HandsOn() && deadLetters == old(deadLetters) + [FailedMessage(offset, eventType, retryCount)]
    {
      deadLetters := deadLetters + [FailedMessage(offset, eventType, retryCount)];
      if !hasDeadLetterFunc { return; }
      handedOn := handedOn + [FailedMessage(offset, eventType, retryCount)];
    }

    method RecordSuccess(topic: string, eventType: string, offset: nat)
      modifies this`health
      ensures health.Keys == old(health).Keys + {topic}
      ensures forall t :: t in old(health) && t != topic ==> health[t] == old(health)[t]
      ensures var before := old(HealthOf(topic));
        HealthOf(topic) == Some(Health(offset, eventType,
          (if before.None? then 0 else before.value.messagesOk) + 1,
          if before.None? then 0 else before.value.messagesFailed))
    {
      var h := if topic in health then health[topic] else Health(0, "", 0, 0);
      health := health[topic := Health(offset, eventType, h.messagesOk + 1, h.messagesFailed)];
    }

    method RecordFailure(topic: string, eventType: string, offset: nat)
      modifies this`health
      ensures health.Keys == old(health).Keys + {topic}
      ensures forall t :: t in old(health) && t != topic ==> health[t] == old(health)[t]
      ensures var before := old(HealthOf(topic));
        HealthOf(topic) == Some(Health(offset, eventType,
          if before.None? then 0 else before.value.messagesOk,
          (if before.None? then 0 else before.value.messagesFailed) + 1))
    {
      var h := if topic in health then health[topic] else Health(0, "", 0, 0);
      health := health[topic := Health(offset, eventType, h.messagesOk, h.messagesFailed + 1)];
    }

    // The retry loop: attempts up to the limit, stopping at the first success.
    method Retry(handlerOk: nat -> bool) returns (handled: bool, calls: nat)
      modifies this`handlerCalls
      ensures handlerCalls == old(handlerCalls) + calls
      ensures var n := FirstSuccess(handlerOk, 1, maxRetries);
        handled == (n <= maxRetries) && calls == if handled then n else if maxRetries < 0 then 0 else maxRetries
    {
      handled, calls := false, 0;
      var attempt := 1;
      while attempt <= maxRetries
        invariant 1 <= attempt && (attempt <= maxRetries + 1 || attempt == 1) && calls == attempt - 1
        invariant handlerCalls == old(handlerCalls) + calls
        invariant FirstSuccess(handlerOk, 1, maxRetries) == FirstSuccess(handlerOk, attempt, maxRetries)
      {
        handlerCalls := handlerCalls + 1;
        calls := calls + 1;
        if handlerOk(attempt) {
          return true, calls;
        }
        attempt := attempt + 1;
      }
    }

    method ConsumeTopic(reader: Reader, topic: string, happenings: seq<Happening>)
      requires HandsOn()
      modifies this, reader
      ensures HandsOn()
      ensures State(topic, reader)
           == Loop(reader.log, old(State(topic, reader)), validationOff, maxRetries, happenings)
      ensures forall t :: t in old(health) && t != topic ==> t in health && health[t] == old(health)[t]
    {
      hide Process;
      var i := 0;
      while i < |happenings|
        invariant 0 <= i <= |happenings| && HandsOn()
        invariant Loop(reader.log, State(topic, reader), validationOff, maxRetries, happenings[i..])
               == Loop(reader.log, old(State(topic, reader)), validationOff, maxRetries, happenings)
        invariant forall t :: t in old(health) && t != topic ==> t in health && health[t] == old(health)[t]
      {
        assert happenings[i..][0] == happenings[i] && happenings[i..][1..] == happenings[i + 1..];
        match happenings[i] {
          case FetchFailed =>
          case Subscribed(eventType) => Subscribe(eventType);
          case Fetched(answers) =>
            if reader.position >= |reader.log| { return; }
            HandleMessage(reader, topic, answers);
        }
        i := i + 1;
      }
    }

    // One turn of the loop after a successful fetch.
    method HandleMessage(reader: Reader, topic: string, a: Answers)
      requires reader.position < |reader.log| && HandsOn()
      modifies this`health, this`deadLetters, this`handedOn, this`handlerCalls, reader
      ensures HandsOn()
      ensures State(topic, reader)
           == Process(reader.log, old(State(topic, reader)), validationOff, maxRetries, a)
      ensures forall t :: t in old(health) && t != topic ==> t in health && health[t] == old(health)[t]
    {
      hide FirstSuccess, HandsOn, HealthOf, Process;
      var offset, msg := reader.position, reader.log[reader.position];
      Processed(reader.log, State(topic, reader), validationOff, maxRetries, a);
      reader.position := offset + 1;
      if msg.event.None? {
        SendToDeadLetter(offset, "", 0);
        reader.CommitMessages(offset, a.commitApplied);
        return;
      }
      var event := msg.event.value;
      if event.typ !in handlers {
        reader.CommitMessages(offset, a.commitApplied);
        return;
      }
      if !validationOff {
        if !a.valid {
          SendToDeadLetter(offset, event.typ, 0);
          RecordFailure(topic, event.typ, offset);
          reader.CommitMessages(offset, a.commitApplied);
          return;
        }
      }
      Deliver(topic, event.typ, offset, a.handlerOk);
      reader.CommitMessages(offset, a.commitApplied);
    }

    // The retry loop and what is made of its result.
    method Deliver(topic: string, eventType: string, offset: nat, handlerOk: nat -> bool)
      requires HandsOn()
      modifies this`health, this`deadLetters, this`handedOn, this`handlerCalls
      ensures HandsOn()
      ensures var before, n := old(HealthOf(topic)), FirstSuccess(handlerOk, 1, maxRetries);
        var (ok, failed) := if before.None? then (0, 0) else (before.value.messagesOk, before.value.messagesFailed);
        if n <= maxRetries then
          && HealthOf(topic) == Some(Health(offset, eventType, ok + 1, failed))
          && deadLetters == old(deadLetters) && handlerCalls == old(handlerCalls) + n
        else
          && HealthOf(topic) == Some(Health(offset, eventType, ok, failed + 1))
          && deadLetters == old(deadLetters) + [FailedMessage(offset, eventType, maxRetries)]
          && handlerCalls == old(handlerCalls) + if maxRetries < 0 then 0 else maxRetries
      ensures forall t :: t in old(health) && t != topic ==> t in health && health[t] == old(health)[t]
    {
      hide FirstSuccess, HandsOn, HealthOf;
      var handled, _ := Retry(handlerOk);
      if !handled {
        SendToDeadLetter(offset, eventType, maxRetries);
        RecordFailure(topic, eventType, offset);
      } else {
        RecordSuccess(topic, eventType, offset);
      }
    }
  }

  // What Process comes to, case by case.
  lemma Processed(log: seq<Message>, s: LoopState, validationOff: bool, maxRetries: int, a: Answers)
    requires s.position < |log|
    ensures var offset, msg, t := s.position, log[s.position], Process(log, s, validationOff, maxRetries, a);
      var committed := if a.commitApplied then Some(offset + 1) else s.committed;
      var (ok, failed) := if s.health.None? then (0, 0) else (s.health.value.messagesOk, s.health.value.messagesFailed);
      var n := FirstSuccess(a.handlerOk, 1, maxRetries);
      var typ := EventType(msg);
      if msg.event.None? then
        t == s.(position := offset + 1, committed := committed,
                deadLetters := s.deadLetters + [FailedMessage(offset, "", 0)])
      else if typ !in s.handlers then
        t == s.(position := offset + 1, committed := committed)
      else if !validationOff && !a.valid then
        t == LoopState(offset + 1, committed, s.handlers, Some(Health(offset, typ, ok, failed + 1)),
                       s.deadLetters + [FailedMessage(offset, typ, 0)], s.handlerCalls)
      else if n <= maxRetries then
        t == LoopState(offset + 1, committed, s.handlers, Some(Health(offset, typ, ok + 1, failed)),
                       s.deadLetters, s.handlerCalls + n)
      else
        t == LoopState(offset + 1, committed, s.handlers, Some(Health(offset, typ, ok, failed + 1)),
                       s.deadLetters + [FailedMessage(offset, typ, maxRetries)],
                       s.handlerCalls + if maxRetries < 0 then 0 else maxRetries)
  {
    hide FirstSuccess;
  }
}
