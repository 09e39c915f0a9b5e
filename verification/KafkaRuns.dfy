// The consumers of a topic in front of one ledger: messages arrive on its partitions, each
// partition is read by a process of the group, the statements of calls on different partitions come
// in any order, processes crash anywhere and resume from what was committed, commits fail, and so do
// the statements (timetravel/kafka_recorder.go, timetravel/recorder.go, kafka/consumer.go).
module KafkaRuns {
  import opened Events
  import opened Publisher
  import opened Ledger
  import opened LedgerReads
  import opened KafkaLedger
  import opened Wrappers
  import Consumer
  import ConsumerRuns

  // The consumers' settings, the parsed schemas of their registry, the marshaling of payload texts
  // in the sink, and the name the sink writes to its rows.
  datatype Env = Env(config: ConsumerRuns.Config, schemas: Schemas, compact: Compactor, writer: string)

  // ---- One message -----------------------------------------------------------------------------------

  // What the schema check says of a message.
  predicate Accepts(env: Env, msg: Message) { msg.event.Some? && ConsumerAccepts(env.schemas, msg.event.value) }

  // What processing a message records, if anything. (A retry limit below one leaves no attempt.)
  function CaptureOf(env: Env, msg: Message): Option<Capture> {
    if env.config.maxRetries < 1 || msg.event.None? || msg.event.value.typ != EVENT_TYPE then None
    else if !env.config.validationOff && !Accepts(env, msg) then None
    else match Handle(msg.event.value)
      case None => None
      case Some(c) => match env.compact(c.payload)
        case None => None
        case Some(stored) => Some(c.(payload := stored))
  }

  predicate Captures(env: Env, msg: Message, entity: Entity) {
    CaptureOf(env, msg).Some? && CaptureOf(env, msg).value.entity == entity
  }

  // ---- The system -----------------------------------------------------------------------------------

  // The process that reads one partition. While the sink is at work on a message, `pending` is the
  // time it read for it; `clock` is the last time it read.
  datatype Worker = Worker(consumer: ConsumerRuns.State, pending: Option<int>, clock: int)

  // A statement to the database, with the partition it came from.
  datatype Statement = Statement(from: nat, step: Step)

  datatype System = System(workers: seq<Worker>, log: seq<Statement>)

  datatype Action =
    | Arrive(msg: Message)
    | Begin(now: int, closeOk: bool)                    // the sink starts: time is read, open rows are closed
    | Finish(insertOk: bool, commitApplied: bool)       // the row is inserted and the turn ends
    | Crash

  datatype Move = Move(partition: nat, action: Action)

  function Started(env: Env, s: ConsumerRuns.State): ConsumerRuns.State {
    ConsumerRuns.Next(env.config, s, ConsumerRuns.Subscribe(EVENT_TYPE))
  }

  function FirstWorker(env: Env): Worker { Worker(Started(env, ConsumerRuns.Init(env.config)), None, 0) }

  function Init(env: Env, partitions: nat): System { System(seq(partitions, _ => FirstWorker(env)), []) }

  // The snapshot handler never reports an error.
  function Smooth(env: Env, c: ConsumerRuns.State, commitApplied: bool): Consumer.Answers
    requires c.loop.position < |c.log|
  {
    Consumer.Answers(Accepts(env, c.log[c.loop.position]), _ => true, commitApplied)
  }

  predicate WasHandled(env: Env, c: ConsumerRuns.State)
    requires c.loop.position < |c.log|
  {
    Consumer.OutcomeOf(c.log[c.loop.position], c.loop.handlers, env.config.validationOff, env.config.maxRetries,
                       Smooth(env, c, true)).Handled?
  }

  // What processing the next message records, if anything.
  function Captured(env: Env, c: ConsumerRuns.State): Option<Capture> {
    if c.loop.position < |c.log| && WasHandled(env, c) then CaptureOf(env, c.log[c.loop.position]) else None
  }

  function RowOf(env: Env, c: Capture, now: int): Row {
    NewRow(c.entity, env.writer, Call(c.payload, now, c.cc, true, true))
  }

  predicate CanBegin(env: Env, w: Worker, now: int) {
    w.pending.None? && Captured(env, w.consumer).Some? && w.clock < now
  }

  predicate CanFinish(env: Env, w: Worker) {
    w.consumer.loop.position < |w.consumer.log| && (Captured(env, w.consumer).Some? ==> w.pending.Some?)
  }

  // An action that is not possible has no effect.
  function Act(env: Env, w: Worker, action: Action): Worker {
    match action
    case Arrive(msg) => w.(consumer := ConsumerRuns.Next(env.config, w.consumer, ConsumerRuns.Arrive(msg)))
    case Begin(now, _) => if CanBegin(env, w, now) then w.(pending := Some(now), clock := now) else w
    case Finish(_, commitApplied) =>
      if CanFinish(env, w)
      then Worker(ConsumerRuns.Next(env.config, w.consumer, ConsumerRuns.Turn(Smooth(env, w.consumer, commitApplied))),
                  None, w.clock)
      else w
    case Crash => Worker(Started(env, ConsumerRuns.Next(env.config, w.consumer, ConsumerRuns.Crash)), None, w.clock)
  }

  // The statement that an action sends.
  function Sends(env: Env, w: Worker, action: Action): Option<Step> {
    match action
    case Begin(now, closeOk) =>
      if CanBegin(env, w, now) then Some(Close(Captured(env, w.consumer).value.entity, now, closeOk)) else None
    case Finish(insertOk, _) =>
      if CanFinish(env, w) && Captured(env, w.consumer).Some?
      then Some(Insert(RowOf(env, Captured(env, w.consumer).value, w.pending.value), insertOk)) else None
    case _ => None
  }

  function Next(env: Env, s: System, m: Move): System {
    if m.partition >= |s.workers| then s
    else
      var w := s.workers[m.partition];
      var step := Sends(env, w, m.action);
      System(s.workers[m.partition := Act(env, w, m.action)],
             if step.Some? then s.log + [Statement(m.partition, step.value)] else s.log)
  }

  function Run(env: Env, s: System, moves: seq<Move>): System
    decreases |moves|
  {
    if moves == [] then s else Run(env, Next(env, s, moves[0]), moves[1..])
  }

  function Steps(log: seq<Statement>): seq<Step> {
    seq(|log|, i requires 0 <= i < |log| => log[i].step)
  }

  // The table as the statements left it.
  function Rows(s: System): seq<Row> { Ledger.Run([], Steps(s.log)) }

  // Every insert that is tried succeeds.
  ghost predicate InsertsSucceed(moves: seq<Move>) {
    forall i :: 0 <= i < |moves| && moves[i].action.Finish? ==> moves[i].action.insertOk
  }

  // The two statements of one message are those of one call of the sink.
  lemma OneCallIsTwoStatements(env: Env, w: Worker, now: int, closeOk: bool, insertOk: bool, commitApplied: bool)
    requires CanBegin(env, w, now)
    ensures var begin, finish := Begin(now, closeOk), Finish(insertOk, commitApplied);
      var c := Captured(env, w.consumer).value;
      var steps := StepsOf(c.entity, env.writer, Call(c.payload, now, c.cc, closeOk, insertOk));
      Sends(env, w, begin) == Some(steps[0]) && Sends(env, Act(env, w, begin), finish) == Some(steps[1])
  {
    hide CaptureOf, WasHandled;
  }

  // ---- What a partition says of an entity -------------------------------------------------------------

  function CaptureAt(env: Env, c: ConsumerRuns.State, o: nat): Option<Capture> {
    if o < |c.log| then CaptureOf(env, c.log[o]) else None
  }

  // Message o of the partition records the entity.
  predicate Says(env: Env, c: ConsumerRuns.State, o: nat, entity: Entity) {
    CaptureAt(env, c, o).Some? && CaptureAt(env, c, o).value.entity == entity
  }

  // Some process has been through message o.
  ghost predicate Seen(c: ConsumerRuns.State, o: nat) { ConsumerRuns.Processed(c.history, o) }

  ghost predicate ToCome(env: Env, c: ConsumerRuns.State, entity: Entity) {
    exists o: nat :: c.loop.position <= o && Says(env, c, o, entity)
  }

  // The furthest message of the entity that some process has been through.
  ghost predicate Furthest(env: Env, c: ConsumerRuns.State, o: nat, entity: Entity) {
    && Says(env, c, o, entity) && Seen(c, o)
    && forall n: nat :: Says(env, c, n, entity) && Seen(c, n) ==> n <= o
  }

  // A message of the entity past all those.
  ghost predicate Beyond(env: Env, c: ConsumerRuns.State, o: nat, entity: Entity) {
    Says(env, c, o, entity) && forall n: nat :: Says(env, c, n, entity) && Seen(c, n) ==> n < o
  }

  // ---- The state of a worker ---------------------------------------------------------------------------

  // Where the group resumes is not past a message it has not been through.
  predicate Resumes(env: Env, c: ConsumerRuns.State) { c.loop.committed.Some? || env.config.fromFirstOffset }

  ghost predicate Ready(env: Env, c: ConsumerRuns.State) {
    && ConsumerRuns.Inv(env.config, c) && EVENT_TYPE in c.loop.handlers
    && (!Resumes(env, c) ==> forall o: nat :: Seen(c, o) ==> o < c.loop.position)
  }

  ghost predicate WorkerInv(env: Env, w: Worker) {
    && Ready(env, w.consumer)
    && (w.pending.Some? ==> w.pending.value == w.clock && Captured(env, w.consumer).Some?)
  }

  predicate AtWork(env: Env, w: Worker, entity: Entity) {
    w.pending.Some? && Captured(env, w.consumer).Some? && Captured(env, w.consumer).value.entity == entity
  }

  predicate RowSays(row: Row, c: Option<Capture>) {
    c == Some(Capture(row.entity, row.payload, ChangeContext(row.changedBy, row.changeReason)))
  }

  // The last statement of the partition for the entity was the insert of its furthest message, or the
  // close of one past that, or there was neither statement nor message. `sure` is whether inserts that
  // are tried succeed.
  ghost predicate Settled(env: Env, c: ConsumerRuns.State, last: Option<Step>, entity: Entity, sure: bool) {
    match last
    case None => forall o: nat :: Says(env, c, o, entity) ==> !Seen(c, o)
    case Some(Close(_, _, _)) => exists o: nat :: Beyond(env, c, o, entity)
    case Some(Insert(row, ok)) =>
      (sure ==> ok) && exists o: nat :: Furthest(env, c, o, entity) && RowSays(row, CaptureAt(env, c, o))
  }

  // For each entity: the sink is at work on it, or a message is sure to come, or it is settled.
  ghost predicate EntityInv(env: Env, w: Worker, last: Option<Step>, entity: Entity, sure: bool) {
    || (AtWork(env, w, entity) && last.Some? && last.value.Close?)
    || (Resumes(env, w.consumer) && ToCome(env, w.consumer, entity))
    || Settled(env, w.consumer, last, entity, sure)
  }

  // What the worker sent earlier: closes and inserts of messages of its partition, inserts of messages
  // that were processed, at times up to its clock.
  ghost predicate SentBy(env: Env, w: Worker, step: Step) {
    match step
    case Close(entity, now, _) => now <= w.clock && exists o: nat :: Says(env, w.consumer, o, entity)
    case Insert(row, _) =>
      && row.validTo.None? && row.validFrom <= w.clock && (w.pending.Some? ==> row.validFrom < w.clock)
      && exists o: nat :: Says(env, w.consumer, o, row.entity) && Seen(w.consumer, o)
           && RowSays(row, CaptureAt(env, w.consumer, o))
  }

  // The last statement for the entity after one action.
  function LastAfter(env: Env, w: Worker, action: Action, last: Option<Step>, entity: Entity): Option<Step> {
    var step := Sends(env, w, action);
    if step.Some? && StepEntity(step.value) == entity then step else last
  }

  // ---- One action --------------------------------------------------------------------------------------

  // With the handler subscribed, what a message captures is what processing it records.
  lemma Handled(env: Env, c: ConsumerRuns.State)
    requires c.loop.position < |c.log| && EVENT_TYPE in c.loop.handlers
    ensures Captured(env, c) == CaptureOf(env, c.log[c.loop.position])
  {
    hide KafkaLedger.Handle, ConsumerAccepts;
  }

  lemma AfterArrive(env: Env, w: Worker, msg: Message)
    requires WorkerInv(env, w)
    ensures var c, t := w.consumer, Act(env, w, Arrive(msg));
      && WorkerInv(env, t) && t.consumer.log == c.log + [msg] && t.consumer.loop == c.loop
      && t.consumer.history == c.history && t.consumer.origin == c.origin
      && t.pending == w.pending && t.clock == w.clock
      && (w.pending.Some? ==> Captured(env, t.consumer) == Captured(env, c))
  {
    var c, t := w.consumer, Act(env, w, Arrive(msg)).consumer;
    ConsumerRuns.NextKeepsInv(env.config, c, ConsumerRuns.Arrive(msg));
    assert forall o: nat :: Seen(t, o) <==> Seen(c, o);
    hide ConsumerRuns.Inv, Seen, CaptureOf, Consumer.OutcomeOf, Accepts;
  }

  lemma AfterTurn(env: Env, w: Worker, insertOk: bool, commitApplied: bool)
    requires WorkerInv(env, w) && CanFinish(env, w)
    ensures var c, t := w.consumer, Act(env, w, Finish(insertOk, commitApplied));
      && WorkerInv(env, t) && t.consumer.log == c.log && t.consumer.loop.position == c.loop.position + 1
      && (forall o: nat :: Seen(t.consumer, o) <==> Seen(c, o) || o == c.loop.position)
      && t.pending == None && t.clock == w.clock && t.consumer.origin == c.origin
      && (Resumes(env, c) ==> Resumes(env, t.consumer))
      && (!commitApplied ==> t.consumer.loop.committed == c.loop.committed)
  {
    var c, t := w.consumer, Act(env, w, Finish(insertOk, commitApplied)).consumer;
    var answers := Smooth(env, c, commitApplied);
    assert answers.commitApplied == commitApplied;
    hide Captured, Smooth;
    ConsumerRuns.NextKeepsInv(env.config, c, ConsumerRuns.Turn(answers));
    TurnAdvances(env, c, answers);
    hide ConsumerRuns.Inv, ConsumerRuns.Next;
  }

  lemma TurnAdvances(env: Env, c: ConsumerRuns.State, answers: Consumer.Answers)
    requires c.loop.position < |c.log|
    ensures var t := ConsumerRuns.Next(env.config, c, ConsumerRuns.Turn(answers));
      && t.log == c.log && t.loop.position == c.loop.position + 1 && t.loop.handlers == c.loop.handlers
      && t.origin == c.origin && (Resumes(env, c) ==> Resumes(env, t))
      && (!answers.commitApplied ==> t.loop.committed == c.loop.committed)
      && forall o: nat :: Seen(t, o) <==> Seen(c, o) || o == c.loop.position
  {
    var t := ConsumerRuns.Next(env.config, c, ConsumerRuns.Turn(answers));
    hide Consumer.OutcomeOf, Consumer.Tally, Consumer.HandlerCalls;
    assert t.history[..|c.history|] == c.history && t.history[|c.history|].offset == c.loop.position;
    forall o: nat ensures Seen(t, o) <==> Seen(c, o) || o == c.loop.position {
      if Seen(c, o) {
        var i :| 0 <= i < |c.history| && c.history[i].offset == o;
        assert t.history[i].offset == o;
      }
    }
  }

  lemma AfterCrash(env: Env, w: Worker)
    requires WorkerInv(env, w)
    ensures var c, t := w.consumer, Act(env, w, Crash);
      && WorkerInv(env, t) && t.consumer.log == c.log && t.consumer.loop.committed == c.loop.committed
      && t.consumer.history == c.history && t.pending == None && t.clock == w.clock
      && (Resumes(env, c) ==> t.consumer.loop.position <= c.loop.position)
      && (!Resumes(env, c) ==> t.consumer.loop.position == |c.log|)
  {
    var c, t := w.consumer, Act(env, w, Crash).consumer;
    var down := ConsumerRuns.Next(env.config, c, ConsumerRuns.Crash);
    ConsumerRuns.NextKeepsInv(env.config, c, ConsumerRuns.Crash);
    ConsumerRuns.NextKeepsInv(env.config, down, ConsumerRuns.Subscribe(EVENT_TYPE));
    assert forall o: nat :: Seen(t, o) <==> Seen(c, o);
    assert c.loop.position <= |c.log|;
    hide Seen, ConsumerRuns.HistoryInv, ConsumerRuns.SessionInv, ConsumerRuns.CountersInv;
  }

  // What has been said and seen of an entity stays so.
  lemma SeenIsInLog(env: Env, c: ConsumerRuns.State, o: nat)
    requires Ready(env, c) && Seen(c, o)
    ensures o < |c.log|
  {
    var i :| 0 <= i < |c.history| && c.history[i].offset == o;
    assert ConsumerRuns.RecordInv(env.config, c.log, ConsumerRuns.GivenUp(c), c.history[i]);
  }

  ghost predicate ActKeeps(env: Env, w: Worker, action: Action, last: Option<Step>, entity: Entity, sure: bool) {
    EntityInv(env, Act(env, w, action), LastAfter(env, w, action, last, entity), entity, sure)
  }

  // What was said and seen stays so.
  ghost predicate Grows(env: Env, c: ConsumerRuns.State, t: ConsumerRuns.State) {
    && (forall o: nat :: CaptureAt(env, c, o).Some? ==> CaptureAt(env, t, o) == CaptureAt(env, c, o))
    && (forall o: nat :: Seen(c, o) ==> Seen(t, o))
  }

  // No process went through a further message of the entity.
  ghost predicate SeesNoMore(env: Env, c: ConsumerRuns.State, t: ConsumerRuns.State, entity: Entity) {
    forall o: nat :: Says(env, t, o, entity) && Seen(t, o) ==> Says(env, c, o, entity) && Seen(c, o)
  }

  lemma StaysSettled(
      env: Env, c: ConsumerRuns.State, t: ConsumerRuns.State, last: Option<Step>, entity: Entity, sure: bool)
    requires Settled(env, c, last, entity, sure) && Grows(env, c, t) && SeesNoMore(env, c, t, entity)
    ensures Settled(env, t, last, entity, sure)
  {
    hide CaptureAt, Seen, RowSays;
    if last.Some? && last.value.Close? {
      var o: nat :| Beyond(env, c, o, entity);
      assert Beyond(env, t, o, entity);
    }
    if last.Some? && last.value.Insert? {
      var o: nat :| Furthest(env, c, o, entity) && RowSays(last.value.row, CaptureAt(env, c, o));
      assert Furthest(env, t, o, entity);
    }
  }

  lemma ArriveGrows(env: Env, w: Worker, msg: Message)
    requires WorkerInv(env, w)
    ensures var c, t := w.consumer, Act(env, w, Arrive(msg)).consumer;
      Grows(env, c, t) && forall entity :: SeesNoMore(env, c, t, entity)
  {
    var c, t := w.consumer, Act(env, w, Arrive(msg)).consumer;
    AfterArrive(env, w, msg);
    forall o: nat | Seen(c, o) ensures o < |c.log| { SeenIsInLog(env, c, o); }
    assert forall o: nat :: Seen(c, o) <==> Seen(t, o);
    hide Seen, CaptureOf, WorkerInv, Act;
  }

  lemma ArriveKeepsEntity(env: Env, w: Worker, msg: Message, last: Option<Step>, entity: Entity, sure: bool)
    requires WorkerInv(env, w) && EntityInv(env, w, last, entity, sure)
    ensures ActKeeps(env, w, Arrive(msg), last, entity, sure)
  {
    var c, t := w.consumer, Act(env, w, Arrive(msg)).consumer;
    AfterArrive(env, w, msg);
    ArriveGrows(env, w, msg);
    assert LastAfter(env, w, Arrive(msg), last, entity) == last;
    hide Seen, CaptureAt, Captured, WorkerInv, Act, LastAfter, Settled, SeesNoMore;
    if Settled(env, c, last, entity, sure) {
      StaysSettled(env, c, t, last, entity, sure);
    } else if ToCome(env, c, entity) {
      var o: nat :| c.loop.position <= o && Says(env, c, o, entity);
      assert Says(env, t, o, entity);
    }
  }

  lemma BeginKeepsEntity(
      env: Env, w: Worker, now: int, closeOk: bool, last: Option<Step>, entity: Entity, sure: bool)
    requires WorkerInv(env, w) && EntityInv(env, w, last, entity, sure)
    ensures ActKeeps(env, w, Begin(now, closeOk), last, entity, sure)
  {
    hide Captured, WorkerInv, Settled, ToCome;
  }

  ghost predicate OneFurther(env: Env, c: ConsumerRuns.State, t: ConsumerRuns.State) {
    && t.loop.position == c.loop.position + 1
    && (forall o: nat :: CaptureAt(env, t, o) == CaptureAt(env, c, o))
    && (forall o: nat :: Seen(t, o) <==> Seen(c, o) || o == c.loop.position)
    && (!Resumes(env, c) ==> forall o: nat :: Seen(c, o) ==> o < c.loop.position)
    && (Resumes(env, c) ==> Resumes(env, t))
  }

  lemma TurnIsOneFurther(env: Env, w: Worker, insertOk: bool, commitApplied: bool)
    requires WorkerInv(env, w) && CanFinish(env, w)
    ensures OneFurther(env, w.consumer, Act(env, w, Finish(insertOk, commitApplied)).consumer)
  {
    AfterTurn(env, w, insertOk, commitApplied);
    hide Seen, CaptureOf, Act, ConsumerRuns.Inv;
  }

  lemma TurnSettles(
      env: Env, c: ConsumerRuns.State, t: ConsumerRuns.State, row: Row, ok: bool, entity: Entity, sure: bool)
    requires OneFurther(env, c, t) && (sure ==> ok)
    requires Says(env, c, c.loop.position, entity) && RowSays(row, CaptureAt(env, c, c.loop.position))
    ensures Settled(env, t, Some(Insert(row, ok)), entity, sure) || (Resumes(env, t) && ToCome(env, t, entity))
  {
    hide CaptureAt, Seen, Resumes, RowSays;
    var p := c.loop.position;
    if exists o: nat :: o > p && Says(env, c, o, entity) && Seen(c, o) {
      var o: nat :| o > p && Says(env, c, o, entity) && Seen(c, o);
      assert Says(env, t, o, entity);
    } else {
      assert Furthest(env, t, p, entity);
    }
  }

  lemma TurnPasses(
      env: Env, c: ConsumerRuns.State, t: ConsumerRuns.State, last: Option<Step>, entity: Entity, sure: bool)
    requires OneFurther(env, c, t) && !Says(env, c, c.loop.position, entity)
    ensures Settled(env, c, last, entity, sure) ==> Settled(env, t, last, entity, sure)
    ensures ToCome(env, c, entity) ==> ToCome(env, t, entity)
  {
    hide CaptureAt, Seen, Resumes, RowSays, Settled;
    if Settled(env, c, last, entity, sure) { StaysSettled(env, c, t, last, entity, sure); }
    if o: nat :| c.loop.position <= o && Says(env, c, o, entity) { assert Says(env, t, o, entity); }
  }

  lemma FinishKeepsEntity(
      env: Env, w: Worker, insertOk: bool, commitApplied: bool, last: Option<Step>, entity: Entity, sure: bool)
    requires WorkerInv(env, w) && EntityInv(env, w, last, entity, sure) && (sure ==> insertOk)
    ensures ActKeeps(env, w, Finish(insertOk, commitApplied), last, entity, sure)
  {
    if CanFinish(env, w) {
      var c, action := w.consumer, Finish(insertOk, commitApplied);
      var t, p := Act(env, w, action).consumer, c.loop.position;
      Handled(env, c);
      TurnIsOneFurther(env, w, insertOk, commitApplied);
      if Says(env, c, p, entity) {
        var row := RowOf(env, Captured(env, c).value, w.pending.value);
        assert LastAfter(env, w, action, last, entity) == Some(Insert(row, insertOk));
        hide Captured, WorkerInv, Settled, ToCome, Act, Resumes, OneFurther, Seen;
        TurnSettles(env, c, t, row, insertOk, entity, sure);
      } else {
        assert LastAfter(env, w, action, last, entity) == last && !AtWork(env, w, entity);
        hide Captured, WorkerInv, Settled, ToCome, Act, OneFurther, CaptureAt, Seen;
        TurnPasses(env, c, t, last, entity, sure);
        hide LastAfter, AtWork;
        assert Resumes(env, c) ==> Resumes(env, t) by { OneFurtherResumes(env, c, t); }
      }
    }
  }

  lemma OneFurtherResumes(env: Env, c: ConsumerRuns.State, t: ConsumerRuns.State)
    requires OneFurther(env, c, t)
    ensures Resumes(env, c) ==> Resumes(env, t)
  {
  }

  // A crash sets the group back to what was committed, or, with nothing committed, where it is
  // configured to start.
  ghost predicate SetBack(env: Env, c: ConsumerRuns.State, t: ConsumerRuns.State) {
    && (forall o: nat :: CaptureAt(env, t, o) == CaptureAt(env, c, o))
    && (forall o: nat :: Seen(t, o) <==> Seen(c, o))
    && (!Resumes(env, c) ==> forall o: nat :: Seen(c, o) ==> o < c.loop.position)
    && (Resumes(env, c) <==> Resumes(env, t)) && (Resumes(env, c) ==> t.loop.position <= c.loop.position)
  }

  lemma CrashSetsBack(env: Env, w: Worker)
    requires WorkerInv(env, w)
    ensures SetBack(env, w.consumer, Act(env, w, Crash).consumer)
  {
    AfterCrash(env, w);
    var c, t := w.consumer, Act(env, w, Crash).consumer;
    assert forall o: nat :: Seen(t, o) <==> Seen(c, o);
    hide Seen, CaptureOf, Act, ConsumerRuns.Inv;
  }

  lemma SetBackToCome(env: Env, c: ConsumerRuns.State, t: ConsumerRuns.State, entity: Entity)
    requires SetBack(env, c, t) && Resumes(env, c) && ToCome(env, c, entity)
    ensures Resumes(env, t) && ToCome(env, t, entity)
  {
    hide CaptureAt, Seen, Resumes;
    var o: nat :| c.loop.position <= o && Says(env, c, o, entity);
    assert Says(env, t, o, entity);
  }

  lemma SetBackSettles(
      env: Env, c: ConsumerRuns.State, t: ConsumerRuns.State, last: Option<Step>, entity: Entity, sure: bool)
    requires SetBack(env, c, t) && !Resumes(env, c) && Says(env, c, c.loop.position, entity)
    requires last.Some? && last.value.Close?
    ensures Settled(env, t, last, entity, sure)
  {
    hide CaptureAt, Seen, Resumes;
    assert Beyond(env, t, c.loop.position, entity);
  }

  lemma CrashKeepsEntity(env: Env, w: Worker, last: Option<Step>, entity: Entity, sure: bool)
    requires WorkerInv(env, w) && EntityInv(env, w, last, entity, sure)
    ensures ActKeeps(env, w, Crash, last, entity, sure)
  {
    var c, t := w.consumer, Act(env, w, Crash).consumer;
    CrashSetsBack(env, w);
    assert LastAfter(env, w, Crash, last, entity) == last;
    if AtWork(env, w, entity) {
      Handled(env, c);
      assert Says(env, c, c.loop.position, entity);
    }
    hide Captured, WorkerInv, Act, Seen, LastAfter, CaptureAt, Resumes, Settled, SetBack;
    if Settled(env, c, last, entity, sure) {
      assert Grows(env, c, t) && SeesNoMore(env, c, t, entity) by { SetBackGrows(env, c, t, entity); }
      StaysSettled(env, c, t, last, entity, sure);
    } else if Resumes(env, c) {
      SetBackToCome(env, c, t, entity);
    } else {
      SetBackSettles(env, c, t, last, entity, sure);
    }
  }

  lemma SetBackGrows(env: Env, c: ConsumerRuns.State, t: ConsumerRuns.State, entity: Entity)
    requires SetBack(env, c, t)
    ensures Grows(env, c, t) && SeesNoMore(env, c, t, entity)
  {
    hide CaptureAt, Seen, Resumes;
  }

  lemma ActKeepsEntity(env: Env, w: Worker, action: Action, last: Option<Step>, entity: Entity, sure: bool)
    requires WorkerInv(env, w) && EntityInv(env, w, last, entity, sure)
    requires sure && action.Finish? ==> action.insertOk
    ensures ActKeeps(env, w, action, last, entity, sure)
  {
    hide ActKeeps, EntityInv, WorkerInv;
    match action
    case Arrive(msg) => ArriveKeepsEntity(env, w, msg, last, entity, sure);
    case Begin(now, closeOk) => BeginKeepsEntity(env, w, now, closeOk, last, entity, sure);
    case Finish(insertOk, commitApplied) =>
      FinishKeepsEntity(env, w, insertOk, commitApplied, last, entity, sure);
    case Crash => CrashKeepsEntity(env, w, last, entity, sure);
  }

  lemma ActKeepsWorker(env: Env, w: Worker, action: Action)
    requires WorkerInv(env, w)
    ensures WorkerInv(env, Act(env, w, action))
  {
    match action
    case Arrive(msg) => AfterArrive(env, w, msg);
    case Begin(now, closeOk) => hide Captured, Ready;
    case Finish(insertOk, commitApplied) =>
      if CanFinish(env, w) { AfterTurn(env, w, insertOk, commitApplied); }
    case Crash => AfterCrash(env, w);
  }

  lemma ActGrows(env: Env, w: Worker, action: Action)
    requires WorkerInv(env, w)
    ensures Grows(env, w.consumer, Act(env, w, action).consumer)
  {
    match action
    case Arrive(msg) => ArriveGrows(env, w, msg);
    case Begin(now, closeOk) => hide Captured;
    case Finish(insertOk, commitApplied) =>
      if CanFinish(env, w) { TurnIsOneFurther(env, w, insertOk, commitApplied); }
      hide Captured, WorkerInv, Seen;
    case Crash => CrashSetsBack(env, w); hide Seen, WorkerInv, CaptureAt;
  }

  lemma ActKeepsSent(env: Env, w: Worker, action: Action, step: Step)
    requires WorkerInv(env, w) && SentBy(env, w, step)
    ensures SentBy(env, Act(env, w, action), step)
  {
    ActGrows(env, w, action);
    assert w.clock <= Act(env, w, action).clock;
    PendingAfter(env, w, action);
    hide Act, WorkerInv;
    SentStays(env, w, Act(env, w, action), step);
  }

  lemma PendingAfter(env: Env, w: Worker, action: Action)
    ensures var t := Act(env, w, action);
      t.pending.Some? ==> (t.pending == w.pending && t.clock == w.clock) || w.clock < t.clock
  {
    hide Captured, Started, Smooth;
  }

  lemma SentStays(env: Env, w: Worker, t: Worker, step: Step)
    requires SentBy(env, w, step) && Grows(env, w.consumer, t.consumer) && w.clock <= t.clock
    requires t.pending.Some? ==> (t.pending == w.pending && t.clock == w.clock) || w.clock < t.clock
    ensures SentBy(env, t, step)
  {
    hide CaptureAt, Seen, RowSays;
    match step
    case Close(entity, _, _) =>
      var o: nat :| Says(env, w.consumer, o, entity);
      assert Says(env, t.consumer, o, entity);
    case Insert(row, _) =>
      var o: nat :| Says(env, w.consumer, o, row.entity) && Seen(w.consumer, o)
        && RowSays(row, CaptureAt(env, w.consumer, o));
      assert Says(env, t.consumer, o, row.entity) && Seen(t.consumer, o);
  }

  lemma ActSends(env: Env, w: Worker, action: Action)
    requires WorkerInv(env, w) && Sends(env, w, action).Some?
    ensures SentBy(env, Act(env, w, action), Sends(env, w, action).value)
    ensures var step := Sends(env, w, action).value; step.Insert? ==> w.pending == Some(step.row.validFrom)
  {
    var c, t, step := w.consumer, Act(env, w, action), Sends(env, w, action).value;
    var p := c.loop.position;
    Handled(env, c);
    assert Says(env, c, p, StepEntity(step));
    ActGrows(env, w, action);
    assert Says(env, t.consumer, p, StepEntity(step));
    if action.Finish? {
      TurnIsOneFurther(env, w, action.insertOk, action.commitApplied);
      assert RowSays(step.row, CaptureAt(env, t.consumer, p)) && Seen(t.consumer, p);
    }
    hide Seen, CaptureAt, RowSays, Captured, Ready;
  }

  // ---- Every run ----------------------------------------------------------------------------------------

  // The last statement of a partition for an entity.
  function LastStep(log: seq<Statement>, p: nat, entity: Entity): Option<Step> {
    if log == [] then None
    else
      var last := log[|log| - 1];
      if last.from == p && StepEntity(last.step) == entity then Some(last.step)
      else LastStep(log[..|log| - 1], p, entity)
  }

  ghost predicate WorkersInv(env: Env, s: System, entity: Entity, sure: bool) {
    forall p :: 0 <= p < |s.workers| ==>
      WorkerInv(env, s.workers[p]) && EntityInv(env, s.workers[p], LastStep(s.log, p, entity), entity, sure)
  }

  // Every statement was sent by its partition, whose inserts start one after the other.
  ghost predicate LogInv(env: Env, s: System) {
    AllSent(env, s, s.log) && InOrder(s.log)
  }

  ghost predicate InOrder(log: seq<Statement>) {
    forall i, j :: 0 <= i < j < |log| && log[i].from == log[j].from && log[i].step.Insert? && log[j].step.Insert? ==>
      log[i].step.row.validFrom < log[j].step.row.validFrom
  }

  lemma OneMoreStatement(log: seq<Statement>, last: Statement, p: nat, entity: Entity)
    ensures LastStep(log + [last], p, entity)
         == if last.from == p && StepEntity(last.step) == entity then Some(last.step) else LastStep(log, p, entity)
  {
    assert (log + [last])[..|log|] == log;
  }

  lemma NextParts(env: Env, s: System, m: Move)
    requires m.partition < |s.workers|
    ensures var p, t := m.partition, Next(env, s, m);
      var step := Sends(env, s.workers[p], m.action);
      && t.workers == s.workers[p := Act(env, s.workers[p], m.action)]
      && t.log == if step.Some? then s.log + [Statement(p, step.value)] else s.log
  {
    hide Act, Sends;
  }

  lemma NextLast(env: Env, s: System, m: Move, q: nat, entity: Entity)
    requires m.partition < |s.workers|
    ensures LastStep(Next(env, s, m).log, q, entity)
         == if q == m.partition
            then LastAfter(env, s.workers[q], m.action, LastStep(s.log, q, entity), entity)
            else LastStep(s.log, q, entity)
  {
    var step := Sends(env, s.workers[m.partition], m.action);
    NextParts(env, s, m);
    hide Next, Act, Sends, LastStep;
    if step.Some? { OneMoreStatement(s.log, Statement(m.partition, step.value), q, entity); }
  }

  lemma NextKeepsWorkers(env: Env, s: System, m: Move, entity: Entity, sure: bool)
    requires WorkersInv(env, s, entity, sure) && (sure && m.action.Finish? ==> m.action.insertOk)
    ensures WorkersInv(env, Next(env, s, m), entity, sure)
  {
    if m.partition < |s.workers| {
      var p, t := m.partition, Next(env, s, m);
      var w, last := s.workers[p], LastStep(s.log, p, entity);
      NextParts(env, s, m);
      ActKeepsWorker(env, w, m.action);
      ActKeepsEntity(env, w, m.action, last, entity, sure);
      assert ActKeeps(env, w, m.action, last, entity, sure);
      hide *;
      hide Next, Act;
      forall q | 0 <= q < |t.workers|
        ensures WorkerInv(env, t.workers[q]) && EntityInv(env, t.workers[q], LastStep(t.log, q, entity), entity, sure)
      {
        NextLast(env, s, m, q, entity);
      }
    }
  }

  ghost predicate AllSent(env: Env, s: System, log: seq<Statement>) {
    forall i :: 0 <= i < |log| ==> log[i].from < |s.workers| && SentBy(env, s.workers[log[i].from], log[i].step)
  }

  lemma NextKeepsSent(env: Env, s: System, m: Move)
    requires m.partition < |s.workers| && AllSent(env, s, s.log) && WorkerInv(env, s.workers[m.partition])
    ensures AllSent(env, Next(env, s, m), s.log)
  {
    var p, t := m.partition, Next(env, s, m);
    NextParts(env, s, m);
    hide Next, Act, Sends, WorkerInv, SentBy;
    forall i | 0 <= i < |s.log| ensures SentBy(env, t.workers[s.log[i].from], s.log[i].step) {
      if s.log[i].from == p { ActKeepsSent(env, s.workers[p], m.action, s.log[i].step); }
    }
  }

  lemma NextKeepsOrder(env: Env, s: System, m: Move)
    requires m.partition < |s.workers| && LogInv(env, s) && WorkerInv(env, s.workers[m.partition])
    ensures InOrder(Next(env, s, m).log)
  {
    var p, w := m.partition, s.workers[m.partition];
    var step := Sends(env, w, m.action);
    NextParts(env, s, m);
    hide Next, Act, Sends, WorkerInv, SentBy;
    if step.Some? && step.value.Insert? {
      ActSends(env, w, m.action);
      forall i | 0 <= i < |s.log| && s.log[i].from == p && s.log[i].step.Insert?
        ensures s.log[i].step.row.validFrom < step.value.row.validFrom
      {
        SentBefore(env, w, s.log[i].step);
      }
    }
  }

  lemma NextKeepsLog(env: Env, s: System, m: Move)
    requires LogInv(env, s) && forall p :: 0 <= p < |s.workers| ==> WorkerInv(env, s.workers[p])
    ensures LogInv(env, Next(env, s, m))
  {
    if m.partition < |s.workers| {
      NextKeepsOrder(env, s, m);
      NextKeepsSent(env, s, m);
      NextParts(env, s, m);
      var p, t := m.partition, Next(env, s, m);
      var w := s.workers[p];
      var step := Sends(env, w, m.action);
      hide *;
      if step.Some? {
        ActSends(env, w, m.action);
        assert t.workers[p] == Act(env, w, m.action) && |t.workers| == |s.workers|;
        OneMoreSent(env, t, s.log, Statement(p, step.value));
      }
      IsLogInv(env, t);
    }
  }

  lemma OneMoreSent(env: Env, t: System, log: seq<Statement>, last: Statement)
    requires AllSent(env, t, log) && last.from < |t.workers| && SentBy(env, t.workers[last.from], last.step)
    ensures AllSent(env, t, log + [last])
  {
    hide SentBy;
  }

  lemma IsLogInv(env: Env, t: System)
    requires AllSent(env, t, t.log) && InOrder(t.log)
    ensures LogInv(env, t)
  {
  }

  // While a call is under way, the inserts the worker sent are of earlier times.
  lemma SentBefore(env: Env, w: Worker, step: Step)
    requires WorkerInv(env, w) && SentBy(env, w, step) && step.Insert?
    ensures w.pending.Some? ==> step.row.validFrom < w.pending.value
  {
  }

  // Whatever arrives, crashes, is redelivered or fails, and however the statements of different
  // partitions interleave.
  lemma {:induction false} EveryRunKeepsInv(env: Env, s: System, moves: seq<Move>, entity: Entity, sure: bool)
    requires WorkersInv(env, s, entity, sure) && LogInv(env, s) && (sure ==> InsertsSucceed(moves))
    ensures WorkersInv(env, Run(env, s, moves), entity, sure) && LogInv(env, Run(env, s, moves))
    ensures |Run(env, s, moves).workers| == |s.workers|
    decreases |moves|
  {
    if moves != [] {
      NextKeepsWorkers(env, s, moves[0], entity, sure);
      assert forall p :: 0 <= p < |s.workers| ==> WorkerInv(env, s.workers[p]);
      NextKeepsLog(env, s, moves[0]);
      hide Next, WorkersInv, LogInv;
      assert |Next(env, s, moves[0]).workers| == |s.workers| by { NextKeepsWidth(env, s, moves[0]); }
      EveryRunKeepsInv(env, Next(env, s, moves[0]), moves[1..], entity, sure);
    }
  }

  lemma NextKeepsWidth(env: Env, s: System, m: Move)
    ensures |Next(env, s, m).workers| == |s.workers|
  {
    hide Act, Sends;
  }

  lemma FirstWorkerIsReady(env: Env)
    ensures var w := FirstWorker(env);
      && WorkerInv(env, w) && w.pending == None && w.clock == 0 && w.consumer.log == []
      && w.consumer.loop.position == 0 && w.consumer.loop.committed == None && w.consumer.origin == 0
      && forall o: nat :: !Seen(w.consumer, o)
  {
    var c := ConsumerRuns.Init(env.config);
    ConsumerRuns.InitInv(env.config);
    hide ConsumerRuns.Inv;
    ConsumerRuns.NextKeepsInv(env.config, c, ConsumerRuns.Subscribe(EVENT_TYPE));
  }

  lemma InitKeepsInv(env: Env, partitions: nat, entity: Entity, sure: bool)
    ensures WorkersInv(env, Init(env, partitions), entity, sure) && LogInv(env, Init(env, partitions))
    ensures |Init(env, partitions).workers| == partitions
  {
    FirstWorkerIsReady(env);
    hide FirstWorker, WorkerInv, Seen;
  }
}
