// What the ledger shows of an entity at the end of a run of its consumers
// (timetravel/kafka_recorder.go, timetravel/diff.go, kafka/consumer.go).
module KafkaShown {
  import opened Events
  import opened Ledger
  import opened LedgerLaws
  import opened LedgerReads
  import opened KafkaLedger
  import opened KafkaRuns
  import opened Wrappers
  import ConsumerRuns

  // ---- The last message of an entity -------------------------------------------------------------------

  // The last thing the first n messages record for an entity.
  function LastFor(env: Env, log: seq<Message>, n: nat, entity: Entity): Option<Capture>
    requires n <= |log|
  {
    if n == 0 then None
    else if Captures(env, log[n - 1], entity) then CaptureOf(env, log[n - 1])
    else LastFor(env, log, n - 1, entity)
  }

  function LastIn(env: Env, log: seq<Message>, entity: Entity): Option<Capture> { LastFor(env, log, |log|, entity) }

  function LastOn(env: Env, w: Worker, entity: Entity): Option<Capture> { LastIn(env, w.consumer.log, entity) }

  // Message o is the last of the entity on its partition.
  ghost predicate LastSaid(env: Env, c: ConsumerRuns.State, o: nat, entity: Entity) {
    Says(env, c, o, entity) && forall n: nat :: Says(env, c, n, entity) ==> n <= o
  }

  lemma {:induction false} LastForIs(env: Env, c: ConsumerRuns.State, n: nat, entity: Entity)
    requires n <= |c.log|
    ensures match LastFor(env, c.log, n, entity)
      case None => forall o: nat :: o < n ==> !Says(env, c, o, entity)
      case Some(_) => exists o: nat ::
        && o < n && Says(env, c, o, entity)
        && LastFor(env, c.log, n, entity) == CaptureAt(env, c, o)
        && forall m: nat :: o < m < n ==> !Says(env, c, m, entity)
    decreases n
  {
    hide CaptureOf;
    if n > 0 {
      assert Says(env, c, n - 1, entity) <==> Captures(env, c.log[n - 1], entity);
      if !Says(env, c, n - 1, entity) {
        LastForIs(env, c, n - 1, entity);
      }
    }
  }

  lemma LastOnIs(env: Env, w: Worker, entity: Entity)
    ensures match LastOn(env, w, entity)
      case None => forall o: nat :: !Says(env, w.consumer, o, entity)
      case Some(_) => exists o: nat ::
        LastSaid(env, w.consumer, o, entity) && LastOn(env, w, entity) == CaptureAt(env, w.consumer, o)
  {
    var c := w.consumer;
    LastForIs(env, c, |c.log|, entity);
    assert forall o: nat :: Says(env, c, o, entity) ==> o < |c.log|;
    hide LastFor, Says, CaptureAt;
    if LastOn(env, w, entity).Some? {
      var o: nat :| o < |c.log| && Says(env, c, o, entity) && LastOn(env, w, entity) == CaptureAt(env, c, o)
        && forall m: nat :: o < m < |c.log| ==> !Says(env, c, m, entity);
      assert LastSaid(env, c, o, entity);
    }
  }

  lemma LastSaidIsLastOn(env: Env, w: Worker, o: nat, entity: Entity)
    requires LastSaid(env, w.consumer, o, entity)
    ensures LastOn(env, w, entity).Some? && LastOn(env, w, entity) == CaptureAt(env, w.consumer, o)
  {
    LastOnIs(env, w, entity);
    hide LastOn, Says, CaptureAt;
    var n: nat :| LastSaid(env, w.consumer, n, entity) && LastOn(env, w, entity) == CaptureAt(env, w.consumer, n);
    assert n == o;
  }

  // ---- Runs and what they show ------------------------------------------------------------------------

  // Reading an entity at a time after these statements gives this capture, or nothing.
  ghost predicate Shown(log: seq<Statement>, entity: Entity, at: int, c: Option<Capture>) {
    match Newest(Ledger.Run([], Steps(log)), entity, at)
    case None => c == None
    case Some(row) => RowSays(row, c)
  }

  lemma OnlyOneIsShown(log: seq<Statement>, entity: Entity, at: int, c: Option<Capture>, d: Option<Capture>)
    requires Shown(log, entity, at, c) && Shown(log, entity, at, d)
    ensures c == d
  {
    hide Newest;
  }

  // A run of all partitions up to a time.
  ghost predicate Ran(env: Env, partitions: nat, moves: seq<Move>, at: int, s: System) {
    && s == KafkaRuns.Run(env, Init(env, partitions), moves)
    && forall q :: 0 <= q < |s.workers| ==> s.workers[q].clock <= at
  }

  lemma RanKeepsInv(env: Env, partitions: nat, moves: seq<Move>, at: int, s: System, entity: Entity, sure: bool)
    requires Ran(env, partitions, moves, at, s) && (sure ==> InsertsSucceed(moves))
    ensures WorkersInv(env, s, entity, sure) && LogInv(env, s) && |s.workers| == partitions
    ensures InsertsAreOpen(Steps(s.log)) && Past(Steps(s.log), at)
  {
    InitKeepsInv(env, partitions, entity, sure);
    hide Init, WorkersInv;
    EveryRunKeepsInv(env, Init(env, partitions), moves, entity, sure);
    LogIsPast(env, s, at);
  }

  lemma LogIsPast(env: Env, s: System, at: int)
    requires LogInv(env, s) && forall q :: 0 <= q < |s.workers| ==> s.workers[q].clock <= at
    ensures InsertsAreOpen(Steps(s.log)) && Past(Steps(s.log), at)
  {
    hide Says, Seen, RowSays;
    forall i | 0 <= i < |s.log|
      ensures s.log[i].step.Insert? ==> s.log[i].step.row.validTo.None? && s.log[i].step.row.validFrom <= at
      ensures s.log[i].step.Close? ==> s.log[i].step.now <= at
    {
      assert SentBy(env, s.workers[s.log[i].from], s.log[i].step);
    }
  }

  // Everything on the partition is processed.
  predicate Consumed(w: Worker) { w.consumer.loop.position >= |w.consumer.log| }

  // Statement i is the last of a partition for an entity.
  ghost predicate IsLast(log: seq<Statement>, p: nat, entity: Entity, i: nat) {
    && i < |log| && log[i].from == p && StepEntity(log[i].step) == entity
    && forall j :: i < j < |log| && StepEntity(log[j].step) == entity ==> log[j].from != p
  }

  // The statements before the last of a partition for an entity.
  function Before(log: seq<Statement>, p: nat, entity: Entity): seq<Statement> {
    if log == [] then []
    else
      var last := log[|log| - 1];
      if last.from == p && StepEntity(last.step) == entity then log[..|log| - 1]
      else Before(log[..|log| - 1], p, entity)
  }

  lemma {:induction false} LastStepIs(log: seq<Statement>, p: nat, entity: Entity)
    ensures match LastStep(log, p, entity)
      case None => forall i :: 0 <= i < |log| && StepEntity(log[i].step) == entity ==> log[i].from != p
      case Some(step) => exists i: nat ::
        IsLast(log, p, entity, i) && step == log[i].step && Before(log, p, entity) == log[..i]
    decreases |log|
  {
    if log != [] {
      var n := |log| - 1;
      if log[n].from == p && StepEntity(log[n].step) == entity {
        assert IsLast(log, p, entity, n);
      } else {
        LastStepIs(log[..n], p, entity);
        StaysLast(log, p, entity);
        assert LastStep(log, p, entity) == LastStep(log[..n], p, entity);
        assert Before(log, p, entity) == Before(log[..n], p, entity);
        hide LastStep, Before, IsLast;
        if LastStep(log, p, entity).Some? {
          var i: nat :| IsLast(log[..n], p, entity, i) && LastStep(log, p, entity).value == log[..n][i].step
            && Before(log[..n], p, entity) == log[..n][..i];
          assert IsLast(log, p, entity, i);
        }
      }
    }
  }

  lemma StaysLast(log: seq<Statement>, p: nat, entity: Entity)
    requires log != []
    requires var last := log[|log| - 1]; last.from != p || StepEntity(last.step) != entity
    ensures var init := log[..|log| - 1]; forall i: nat :: IsLast(init, p, entity, i) ==>
      IsLast(log, p, entity, i) && init[i] == log[i] && init[..i] == log[..i]
  {
    hide StepEntity;
  }

  lemma IsLastIsLastStep(log: seq<Statement>, p: nat, entity: Entity, i: nat)
    requires IsLast(log, p, entity, i)
    ensures LastStep(log, p, entity) == Some(log[i].step)
  {
    LastStepIs(log, p, entity);
    hide LastStep;
    var k: nat :| IsLast(log, p, entity, k) && LastStep(log, p, entity).value == log[k].step;
    assert i == k;
  }

  // ---- Reading the table --------------------------------------------------------------------------------

  // The last insert of a partition is shown when no other partition sent a later statement for the
  // entity or an insert of a later time.
  lemma TopInsertIsShown(env: Env, s: System, at: int, p: nat, entity: Entity, i: nat)
    requires LogInv(env, s) && InsertsAreOpen(Steps(s.log)) && Past(Steps(s.log), at)
    requires IsLast(s.log, p, entity, i) && s.log[i].step.Insert? && s.log[i].step.ok
    requires forall j :: 0 <= j < |s.log| && StepEntity(s.log[j].step) == entity && s.log[j].from != p ==>
      j < i && (s.log[j].step.Insert? ==> s.log[j].step.row.validFrom < s.log[i].step.row.validFrom)
    ensures Newest(Rows(s), entity, at) == Some(s.log[i].step.row)
  {
    var steps := Steps(s.log);
    ReaderAtEnd(steps, entity, at);
    assert Stands(steps, entity, i);
    forall k: nat | Stands(steps, entity, k) && k != i
      ensures steps[k].row.validFrom < steps[i].row.validFrom
    {
      assert StepEntity(s.log[k].step) == entity;
    }
    hide Newest, AllSent, Past, InsertsAreOpen;
  }

  // All messages of an entity are on one partition.
  ghost predicate Home(env: Env, s: System, p: nat, entity: Entity) {
    p < |s.workers| && forall q, o: nat :: 0 <= q < |s.workers| && q != p ==>
      !Says(env, s.workers[q].consumer, o, entity)
  }

  // A statement for an entity comes from a partition that says something of it.
  lemma SenderSays(env: Env, s: System, i: nat)
    requires LogInv(env, s) && i < |s.log|
    ensures s.log[i].from < |s.workers|
    ensures exists o: nat :: Says(env, s.workers[s.log[i].from].consumer, o, StepEntity(s.log[i].step))
  {
    var w := s.workers[s.log[i].from];
    assert SentBy(env, w, s.log[i].step);
    hide Says, Seen, RowSays;
    match s.log[i].step
    case Close(entity, _, _) =>
      var o: nat :| Says(env, w.consumer, o, entity);
      assert Says(env, w.consumer, o, StepEntity(s.log[i].step));
    case Insert(row, _) =>
      var o: nat :| Says(env, w.consumer, o, row.entity) && Seen(w.consumer, o)
        && RowSays(row, CaptureAt(env, w.consumer, o));
      assert Says(env, w.consumer, o, StepEntity(s.log[i].step));
  }

  lemma HomeSends(env: Env, s: System, p: nat, entity: Entity)
    requires LogInv(env, s) && Home(env, s, p, entity)
    ensures forall i :: 0 <= i < |s.log| && StepEntity(s.log[i].step) == entity ==> s.log[i].from == p
  {
    hide Says, LogInv;
    forall i | 0 <= i < |s.log| && StepEntity(s.log[i].step) == entity ensures s.log[i].from == p {
      SenderSays(env, s, i);
    }
  }

  // ---- An entity whose messages share a partition --------------------------------------------------------

  // Whatever arrives, crashes, is redelivered or fails: the entity shows what the last statement for
  // it inserted, nothing if that statement closed it, and if it failed what was shown before.
  lemma HomeShowsIff(
      env: Env, partitions: nat, moves: seq<Move>, at: int, s: System, p: nat, entity: Entity, c: Option<Capture>)
    requires Ran(env, partitions, moves, at, s) && Home(env, s, p, entity)
    ensures Shown(s.log, entity, at, c) <==>
      match LastStep(s.log, p, entity)
      case None => c == None
      case Some(Close(_, _, ok)) => if ok then c == None else Shown(Before(s.log, p, entity), entity, at, c)
      case Some(Insert(row, ok)) => if ok then RowSays(row, c) else Shown(Before(s.log, p, entity), entity, at, c)
  {
    RanKeepsInv(env, partitions, moves, at, s, entity, false);
    HomeSends(env, s, p, entity);
    LastStepIs(s.log, p, entity);
    var last := LastStep(s.log, p, entity);
    hide Home, LastStep, Before, Ran, WorkersInv, LogInv, RowSays, Shown, Newest, InsertsAreOpen, Past;
    if last.None? {
      NothingIsShown(s, at, entity, 0);
      NoneIsShown(s.log, entity, at, c);
    } else {
      var i: nat :| IsLast(s.log, p, entity, i) && last.value == s.log[i].step
        && Before(s.log, p, entity) == s.log[..i];
      if !last.value.ok {
        FailureIsIdle(s.log, i, entity, at);
      } else if last.value.Close? {
        NothingIsShown(s, at, entity, i);
        NoneIsShown(s.log, entity, at, c);
      } else {
        TopInsertIsShown(env, s, at, p, entity, i);
        RowIsShown(s.log, entity, at, last.value.row, c);
      }
    }
  }

  lemma NoneIsShown(log: seq<Statement>, entity: Entity, at: int, c: Option<Capture>)
    requires Newest(Ledger.Run([], Steps(log)), entity, at) == None
    ensures Shown(log, entity, at, c) <==> c == None
  {
  }

  lemma RowIsShown(log: seq<Statement>, entity: Entity, at: int, row: Row, c: Option<Capture>)
    requires Newest(Ledger.Run([], Steps(log)), entity, at) == Some(row)
    ensures Shown(log, entity, at, c) <==> RowSays(row, c)
  {
  }

  // Nothing is shown when no statement for the entity came, or the last one closed it.
  lemma NothingIsShown(s: System, at: int, entity: Entity, i: nat)
    requires InsertsAreOpen(Steps(s.log)) && Past(Steps(s.log), at)
    requires forall j :: i < j < |s.log| ==> StepEntity(s.log[j].step) != entity
    requires (forall j :: 0 <= j < |s.log| ==> StepEntity(s.log[j].step) != entity)
      || (i < |s.log| && Closes(s.log[i].step, entity))
    ensures Newest(Rows(s), entity, at) == None
  {
    var steps := Steps(s.log);
    ReaderAtEnd(steps, entity, at);
    forall k: nat ensures !Stands(steps, entity, k) {
      if k < |steps| && i < |steps| { assert steps[i] == s.log[i].step; }
    }
    hide Newest, Past, InsertsAreOpen;
  }

  // A failed statement that no other of the entity follows changes nothing.
  lemma FailureIsIdle(log: seq<Statement>, i: nat, entity: Entity, at: int)
    requires i < |log| && !log[i].step.ok
    requires forall j :: i < j < |log| ==> StepEntity(log[j].step) != entity
    ensures forall c :: Shown(log, entity, at, c) <==> Shown(log[..i], entity, at, c)
  {
    var a, b := Steps(log[..i]), Steps(log[i..]);
    assert Steps(log) == a + b;
    RunConcat([], a, b);
    IdleSteps(Ledger.Run([], a), b, entity, at);
  }

  // Once the partition is consumed no message of the entity is to come, so the entity is settled.
  lemma ConsumedIsSettled(env: Env, w: Worker, last: Option<Step>, entity: Entity, sure: bool)
    requires WorkerInv(env, w) && EntityInv(env, w, last, entity, sure) && Consumed(w)
    ensures Settled(env, w.consumer, last, entity, sure)
  {
    hide Settled, CaptureOf, WasHandled;
  }

  // The last message of a consumed partition that a process has been through was inserted last.
  lemma SeenIsInserted(
      env: Env, partitions: nat, moves: seq<Move>, at: int, s: System, p: nat, entity: Entity, o: nat, sure: bool)
    requires Ran(env, partitions, moves, at, s) && (sure ==> InsertsSucceed(moves))
    requires p < |s.workers| && Consumed(s.workers[p])
    requires LastSaid(env, s.workers[p].consumer, o, entity) && Seen(s.workers[p].consumer, o)
    ensures var last := LastStep(s.log, p, entity);
      && last.Some? && last.value.Insert? && (sure ==> last.value.ok)
      && RowSays(last.value.row, LastOn(env, s.workers[p], entity))
  {
    var w, last := s.workers[p], LastStep(s.log, p, entity);
    RanKeepsInv(env, partitions, moves, at, s, entity, sure);
    assert WorkerInv(env, w) && EntityInv(env, w, last, entity, sure);
    LastSaidIsLastOn(env, w, o, entity);
    hide WorkerInv, EntityInv, Ran, LastStep, LastOn, Says, Seen, CaptureAt, RowSays, WorkersInv, LogInv;
    ConsumedIsSettled(env, w, last, entity, sure);
  }

  // From where the group started, every message before its position was processed.
  lemma OriginIsSeen(env: Env, w: Worker, o: nat, entity: Entity)
    requires WorkerInv(env, w) && Consumed(w) && Says(env, w.consumer, o, entity) && w.consumer.origin <= o
    ensures Seen(w.consumer, o)
  {
    hide Captures;
  }

  // The group did not start past the last message of the entity.
  ghost predicate Reached(env: Env, w: Worker, entity: Entity) {
    forall o: nat :: LastSaid(env, w.consumer, o, entity) ==> w.consumer.origin <= o
  }

  // Once the partition that all messages of an entity are on is consumed, the ledger shows the last
  // of them (nothing, if there are none), provided the group did not start past it and the inserts
  // succeeded.
  lemma ConsumedLogIsShown(env: Env, partitions: nat, moves: seq<Move>, at: int, s: System, p: nat, entity: Entity)
    requires Ran(env, partitions, moves, at, s) && InsertsSucceed(moves)
    requires Home(env, s, p, entity) && Consumed(s.workers[p]) && Reached(env, s.workers[p], entity)
    ensures Shown(s.log, entity, at, LastOn(env, s.workers[p], entity))
  {
    var w := s.workers[p];
    RanKeepsInv(env, partitions, moves, at, s, entity, true);
    assert WorkerInv(env, w);
    LastOnIs(env, w, entity);
    hide WorkerInv, Ran, LastStep, LastOn, Says, Seen, CaptureAt, RowSays, Shown, Home, Consumed;
    if LastOn(env, w, entity).Some? {
      var o: nat :| LastSaid(env, w.consumer, o, entity) && LastOn(env, w, entity) == CaptureAt(env, w.consumer, o);
      OriginIsSeen(env, w, o, entity);
      SeenIsShown(env, partitions, moves, at, s, p, entity, o);
    } else {
      SilenceIsShown(env, partitions, moves, at, s, p, entity);
    }
  }

  lemma SeenIsShown(
      env: Env, partitions: nat, moves: seq<Move>, at: int, s: System, p: nat, entity: Entity, o: nat)
    requires Ran(env, partitions, moves, at, s) && InsertsSucceed(moves)
    requires Home(env, s, p, entity) && Consumed(s.workers[p])
    requires LastSaid(env, s.workers[p].consumer, o, entity) && Seen(s.workers[p].consumer, o)
    ensures Shown(s.log, entity, at, LastOn(env, s.workers[p], entity))
  {
    assert p < |s.workers|;
    hide *;
    SeenIsInserted(env, partitions, moves, at, s, p, entity, o, true);
    HomeShowsIff(env, partitions, moves, at, s, p, entity, LastOn(env, s.workers[p], entity));
  }

  // An entity without messages shows nothing.
  lemma SilenceIsShown(env: Env, partitions: nat, moves: seq<Move>, at: int, s: System, p: nat, entity: Entity)
    requires Ran(env, partitions, moves, at, s) && Home(env, s, p, entity)
    requires forall o: nat :: !Says(env, s.workers[p].consumer, o, entity)
    ensures Shown(s.log, entity, at, None)
  {
    RanKeepsInv(env, partitions, moves, at, s, entity, false);
    HomeSends(env, s, p, entity);
    hide Says, Ran, LogInv, Home, Shown;
    forall i | 0 <= i < |s.log| ensures StepEntity(s.log[i].step) != entity {
      SenderSays(env, s, i);
    }
    NothingIsShown(s, at, entity, 0);
    NoneIsShown(s.log, entity, at, None);
  }

  // When inserts may fail too: once its last message was processed, an entity shows it exactly when
  // the insert of it succeeded the last time, or the table already showed the same before that.
  lemma ShowsItsLastMessageIff(
      env: Env, partitions: nat, moves: seq<Move>, at: int, s: System, p: nat, entity: Entity, o: nat)
    requires Ran(env, partitions, moves, at, s) && Home(env, s, p, entity) && Consumed(s.workers[p])
    requires LastSaid(env, s.workers[p].consumer, o, entity) && Seen(s.workers[p].consumer, o)
    ensures var last, c := LastStep(s.log, p, entity), LastOn(env, s.workers[p], entity);
      && last.Some? && last.value.Insert?
      && (Shown(s.log, entity, at, c) <==> last.value.ok || Shown(Before(s.log, p, entity), entity, at, c))
  {
    assert p < |s.workers|;
    hide *;
    SeenIsInserted(env, partitions, moves, at, s, p, entity, o, false);
    HomeShowsIff(env, partitions, moves, at, s, p, entity, LastOn(env, s.workers[p], entity));
  }

  // No earlier message of the entity says the same as message o.
  ghost predicate SaysNews(env: Env, c: ConsumerRuns.State, o: nat, entity: Entity) {
    forall n: nat :: n < o && Says(env, c, n, entity) ==> CaptureAt(env, c, n) != CaptureAt(env, c, o)
  }

  // When the group may have started past the last message: the entity shows it exactly when it was
  // processed.
  lemma ShownIffSeen(
      env: Env, partitions: nat, moves: seq<Move>, at: int, s: System, p: nat, entity: Entity, o: nat)
    requires Ran(env, partitions, moves, at, s) && InsertsSucceed(moves)
    requires Home(env, s, p, entity) && Consumed(s.workers[p])
    requires LastSaid(env, s.workers[p].consumer, o, entity) && SaysNews(env, s.workers[p].consumer, o, entity)
    ensures Shown(s.log, entity, at, LastOn(env, s.workers[p], entity)) <==> Seen(s.workers[p].consumer, o)
  {
    var w := s.workers[p];
    if Shown(s.log, entity, at, LastOn(env, w, entity)) {
      LastSaidIsLastOn(env, w, o, entity);
      RanKeepsInv(env, partitions, moves, at, s, entity, true);
      hide Ran, LastOn, Says, Seen, CaptureAt, RowSays, Home, Consumed;
      var row := ShownIsRow(s.log, entity, at, LastOn(env, w, entity));
      var n := RowIsSeen(env, s, p, row);
      assert n <= o && CaptureAt(env, w.consumer, n) == CaptureAt(env, w.consumer, o) by {
        SameCapture(row, CaptureAt(env, w.consumer, n), CaptureAt(env, w.consumer, o));
      }
    } else if Seen(w.consumer, o) {
      SeenIsShown(env, partitions, moves, at, s, p, entity, o);
    }
  }

  lemma SameCapture(row: Row, c: Option<Capture>, d: Option<Capture>)
    requires RowSays(row, c) && RowSays(row, d)
    ensures c == d
  {
  }

  lemma ShownIsRow(log: seq<Statement>, entity: Entity, at: int, c: Option<Capture>) returns (row: Row)
    requires Shown(log, entity, at, c) && c.Some?
    ensures row in Ledger.Run([], Steps(log)) && row.entity == entity && RowSays(row, c)
  {
    row := Newest(Ledger.Run([], Steps(log)), entity, at).value;
  }

  // A row is of a message that some process has been through.
  lemma RowIsSeen(env: Env, s: System, p: nat, row: Row) returns (o: nat)
    requires LogInv(env, s) && Home(env, s, p, row.entity) && row in Rows(s)
    ensures var c := s.workers[p].consumer;
      Says(env, c, o, row.entity) && Seen(c, o) && RowSays(row, CaptureAt(env, c, o))
  {
    HomeSends(env, s, p, row.entity);
    RowsAreFinal(Steps(s.log), row);
    hide Says, Seen, CaptureAt, Home;
    var steps := Steps(s.log);
    var i :| 0 <= i < |steps| && steps[i].Insert? && steps[i].ok && row == FinalRow(steps, i);
    var sent, w := s.log[i].step.row, s.workers[p];
    assert SentBy(env, w, s.log[i].step);
    o :| Says(env, w.consumer, o, sent.entity) && Seen(w.consumer, o) && RowSays(sent, CaptureAt(env, w.consumer, o));
  }
}
