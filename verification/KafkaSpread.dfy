// Messages of one entity on several partitions, and messages a group never reads: when what the
// ledger ends up showing is decided (timetravel/kafka_recorder.go, kafka/consumer.go, kafka/publisher.go).
module KafkaSpread {
  import opened Events
  import opened Ledger
  import opened LedgerReads
  import opened KafkaLedger
  import opened KafkaRuns
  import opened KafkaShown
  import opened Wrappers
  import ConsumerRuns

  // ---- One partition after the other -------------------------------------------------------------------

  function Acts(env: Env, w: Worker, actions: seq<Action>): Worker
    decreases |actions|
  {
    if actions == [] then w else Acts(env, Act(env, w, actions[0]), actions[1..])
  }

  function Sent(env: Env, w: Worker, actions: seq<Action>): seq<Step>
    decreases |actions|
  {
    if actions == [] then []
    else
      var step := Sends(env, w, actions[0]);
      (if step.Some? then [step.value] else []) + Sent(env, Act(env, w, actions[0]), actions[1..])
  }

  function On(p: nat, actions: seq<Action>): seq<Move> {
    seq(|actions|, i requires 0 <= i < |actions| => Move(p, actions[i]))
  }

  function From(p: nat, steps: seq<Step>): seq<Statement> {
    seq(|steps|, i requires 0 <= i < |steps| => Statement(p, steps[i]))
  }

  lemma {:induction false} RunConcat(env: Env, s: System, a: seq<Move>, b: seq<Move>)
    ensures KafkaRuns.Run(env, s, a + b) == KafkaRuns.Run(env, KafkaRuns.Run(env, s, a), b)
    decreases |a|
  {
    hide Next;
    if a == [] {
      assert a + b == b;
    } else {
      assert (a + b)[1..] == a[1..] + b;
      RunConcat(env, Next(env, s, a[0]), a[1..], b);
    }
  }

  lemma {:induction false} RunOn(env: Env, s: System, p: nat, actions: seq<Action>)
    requires p < |s.workers|
    ensures KafkaRuns.Run(env, s, On(p, actions))
         == System(s.workers[p := Acts(env, s.workers[p], actions)],
                   s.log + From(p, Sent(env, s.workers[p], actions)))
    decreases |actions|
  {
    var w := s.workers[p];
    if actions == [] {
      assert s.workers[p := w] == s.workers && s.log + [] == s.log;
    } else {
      hide *;
      var rest, v := actions[1..], Act(env, w, actions[0]);
      var first, others := FirstSent(env, w, actions[0]), Sent(env, v, rest);
      RunFirst(env, s, p, actions);
      NextOn(env, s, p, actions[0]);
      RunOn(env, Next(env, s, Move(p, actions[0])), p, rest);
      OneSent(env, w, actions);
      FromConcat(p, first, others);
      Regroup(s.log, From(p, first), From(p, others));
      UpdateTwice(s.workers, p, v, Acts(env, v, rest));
    }
  }

  lemma Regroup(a: seq<Statement>, b: seq<Statement>, c: seq<Statement>)
    ensures a + b + c == a + (b + c)
  {
  }

  lemma UpdateTwice(workers: seq<Worker>, p: nat, v: Worker, w: Worker)
    requires p < |workers|
    ensures workers[p := v][p := w] == workers[p := w] && workers[p := v][p] == v
  {
  }

  lemma RunFirst(env: Env, s: System, p: nat, actions: seq<Action>)
    requires actions != []
    ensures KafkaRuns.Run(env, s, On(p, actions))
         == KafkaRuns.Run(env, Next(env, s, Move(p, actions[0])), On(p, actions[1..]))
  {
    hide Next;
    assert On(p, actions)[1..] == On(p, actions[1..]) && On(p, actions)[0] == Move(p, actions[0]);
  }

  function FirstSent(env: Env, w: Worker, action: Action): seq<Step> {
    var step := Sends(env, w, action);
    if step.Some? then [step.value] else []
  }

  lemma OneSent(env: Env, w: Worker, actions: seq<Action>)
    requires actions != []
    ensures Acts(env, w, actions) == Acts(env, Act(env, w, actions[0]), actions[1..])
    ensures Sent(env, w, actions)
         == FirstSent(env, w, actions[0]) + Sent(env, Act(env, w, actions[0]), actions[1..])
  {
    hide Act, Sends;
  }

  lemma FromConcat(p: nat, a: seq<Step>, b: seq<Step>)
    ensures From(p, a + b) == From(p, a) + From(p, b)
  {
  }

  lemma NextOn(env: Env, s: System, p: nat, action: Action)
    requires p < |s.workers|
    ensures Next(env, s, Move(p, action))
         == System(s.workers[p := Act(env, s.workers[p], action)],
                   s.log + From(p, FirstSent(env, s.workers[p], action)))
  {
    NextParts(env, s, Move(p, action));
    hide Act, Sends, Next;
    assert s.log + [] == s.log;
  }

  // The programs of the first n partitions but q.
  function Others(programs: seq<seq<Action>>, n: nat, q: nat): seq<Move>
    requires n <= |programs|
  {
    if n == 0 then []
    else Others(programs, n - 1, q) + if n - 1 == q then [] else On(n - 1, programs[n - 1])
  }

  // These programs have run, and what they sent is in the log.
  ghost predicate OthersDone(env: Env, s: System, programs: seq<seq<Action>>, n: nat, q: nat) {
    && |s.workers| == |programs|
    && (forall p :: 0 <= p < |programs| ==> s.workers[p] == WorkerAfter(env, programs, p, p < n && p != q))
    && forall sent :: sent in s.log ==> SentByProgram(env, programs, sent) && sent.from != q
  }

  function WorkerAfter(env: Env, programs: seq<seq<Action>>, p: nat, done: bool): Worker
    requires p < |programs|
  {
    if done then Acts(env, FirstWorker(env), programs[p]) else FirstWorker(env)
  }

  ghost predicate SentByProgram(env: Env, programs: seq<seq<Action>>, sent: Statement) {
    sent.from < |programs| && sent.step in Sent(env, FirstWorker(env), programs[sent.from])
  }

  lemma OneMoreDone(env: Env, s: System, programs: seq<seq<Action>>, p: nat, q: nat)
    requires p < |programs| && p != q && OthersDone(env, s, programs, p, q)
    ensures OthersDone(env, KafkaRuns.Run(env, s, On(p, programs[p])), programs, p + 1, q)
  {
    assert s.workers[p] == WorkerAfter(env, programs, p, false) == FirstWorker(env);
    RunOn(env, s, p, programs[p]);
    FromIsSent(env, programs, p);
    assert WorkerAfter(env, programs, p, true) == Acts(env, FirstWorker(env), programs[p]);
    hide Acts, FirstWorker, Sent, KafkaRuns.Run, WorkerAfter, SentByProgram, From;
  }

  lemma FromIsSent(env: Env, programs: seq<seq<Action>>, p: nat)
    requires p < |programs|
    ensures forall sent :: sent in From(p, Sent(env, FirstWorker(env), programs[p])) ==>
      SentByProgram(env, programs, sent) && sent.from == p
  {
    hide FirstWorker, Sent;
  }

  lemma {:induction false} OthersRun(env: Env, programs: seq<seq<Action>>, n: nat, q: nat)
    requires n <= |programs|
    ensures OthersDone(env, KafkaRuns.Run(env, Init(env, |programs|), Others(programs, n, q)), programs, n, q)
    decreases n
  {
    hide *;
    if n == 0 {
      NoneDone(env, programs, q);
    } else {
      var init, before := Init(env, |programs|), Others(programs, n - 1, q);
      var s := KafkaRuns.Run(env, init, before);
      OneMoreOther(programs, n, q);
      OthersRun(env, programs, n - 1, q);
      if n - 1 != q {
        RunConcat(env, init, before, On(n - 1, programs[n - 1]));
        OneMoreDone(env, s, programs, n - 1, q);
      } else {
        QIsSpared(env, s, programs, q);
      }
    }
  }

  lemma OneMoreOther(programs: seq<seq<Action>>, n: nat, q: nat)
    requires 0 < n <= |programs|
    ensures Others(programs, n, q)
         == if n - 1 == q then Others(programs, n - 1, q)
            else Others(programs, n - 1, q) + On(n - 1, programs[n - 1])
  {
    hide On;
  }

  lemma NoneDone(env: Env, programs: seq<seq<Action>>, q: nat)
    ensures OthersDone(env, KafkaRuns.Run(env, Init(env, |programs|), Others(programs, 0, q)), programs, 0, q)
  {
    hide Acts, FirstWorker;
  }

  lemma QIsSpared(env: Env, s: System, programs: seq<seq<Action>>, q: nat)
    requires OthersDone(env, s, programs, q, q)
    ensures OthersDone(env, s, programs, q + 1, q)
  {
    hide Acts, FirstWorker, SentByProgram;
  }

  // All programs, that of q last.
  function Program(programs: seq<seq<Action>>, q: nat): seq<Move>
    requires q < |programs|
  {
    Others(programs, |programs|, q) + On(q, programs[q])
  }

  ghost predicate EndsWith(log: seq<Statement>, q: nat, steps: seq<Step>) {
    && |steps| <= |log| && log[|log| - |steps|..] == From(q, steps)
    && forall i :: 0 <= i < |log| - |steps| ==> log[i].from != q
  }

  lemma ProgramRun(env: Env, programs: seq<seq<Action>>, q: nat)
    requires q < |programs|
    ensures var s := KafkaRuns.Run(env, Init(env, |programs|), Program(programs, q));
      && |s.workers| == |programs|
      && (forall p :: 0 <= p < |programs| ==> s.workers[p] == Acts(env, FirstWorker(env), programs[p]))
      && EndsWith(s.log, q, Sent(env, FirstWorker(env), programs[q]))
      && forall sent :: sent in s.log ==> SentByProgram(env, programs, sent)
  {
    assert Program(programs, q) == Others(programs, |programs|, q) + On(q, programs[q]);
    hide *;
    var s := KafkaRuns.Run(env, Init(env, |programs|), Others(programs, |programs|, q));
    OthersRun(env, programs, |programs|, q);
    RunConcat(env, Init(env, |programs|), Others(programs, |programs|, q), On(q, programs[q]));
    LastProgram(env, s, programs, q);
  }

  lemma LastProgram(env: Env, s: System, programs: seq<seq<Action>>, q: nat)
    requires q < |programs| && OthersDone(env, s, programs, |programs|, q)
    ensures var t := KafkaRuns.Run(env, s, On(q, programs[q]));
      && |t.workers| == |programs|
      && (forall p :: 0 <= p < |programs| ==> t.workers[p] == Acts(env, FirstWorker(env), programs[p]))
      && EndsWith(t.log, q, Sent(env, FirstWorker(env), programs[q]))
      && forall sent :: sent in t.log ==> SentByProgram(env, programs, sent)
  {
    RunOn(env, s, q, programs[q]);
    FromIsSent(env, programs, q);
    hide Acts, FirstWorker, Sent, KafkaRuns.Run, SentByProgram;
  }

  // ---- Feeding a partition ------------------------------------------------------------------------------

  lemma {:induction false} ActsConcat(env: Env, w: Worker, a: seq<Action>, b: seq<Action>)
    ensures Acts(env, w, a + b) == Acts(env, Acts(env, w, a), b)
    ensures Sent(env, w, a + b) == Sent(env, w, a) + Sent(env, Acts(env, w, a), b)
    decreases |a|
  {
    hide Act, Sends;
    if a == [] {
      assert a + b == b;
    } else {
      assert (a + b)[1..] == a[1..] + b;
      ActsConcat(env, Act(env, w, a[0]), a[1..], b);
    }
  }

  // A message arrives and is processed, and nothing fails.
  function FeedOne(msg: Message, now: int): seq<Action> { [Arrive(msg), Begin(now, true), Finish(true, true)] }

  // Each message arrives and is processed at the next instant.
  function Feed(log: seq<Message>, start: int): seq<Action> {
    if log == [] then [] else Feed(log[..|log| - 1], start) + FeedOne(log[|log| - 1], start + |log|)
  }

  // Everything there was read, without a restart, by a time.
  ghost predicate Fed(env: Env, w: Worker, log: seq<Message>, clock: int) {
    && WorkerInv(env, w) && w.consumer.log == log && Consumed(w) && w.consumer.origin == 0
    && w.clock <= clock && w.pending.None?
  }

  ghost predicate StartAfter(steps: seq<Step>, start: int) {
    forall i :: 0 <= i < |steps| && steps[i].Insert? ==> steps[i].row.validFrom > start
  }

  lemma OneAct(env: Env, w: Worker, action: Action)
    ensures Acts(env, w, [action]) == Act(env, w, action) && Sent(env, w, [action]) == FirstSent(env, w, action)
  {
    hide Act, Sends;
    OneSent(env, w, [action]);
    assert [action][1..] == [];
    assert FirstSent(env, w, action) + [] == FirstSent(env, w, action);
  }

  lemma ThreeActs(env: Env, w: Worker, x: Action, y: Action, z: Action)
    ensures var a := Act(env, w, x);
      var b := Act(env, a, y);
      && Acts(env, w, [x, y, z]) == Act(env, b, z)
      && Sent(env, w, [x, y, z]) == FirstSent(env, w, x) + FirstSent(env, a, y) + FirstSent(env, b, z)
  {
    hide Act, Sends, Acts, Sent, FirstSent;
    assert [x, y, z] == [x] + [y] + [z];
    ActsConcat(env, w, [x] + [y], [z]);
    ActsConcat(env, w, [x], [y]);
    OneAct(env, w, x);
    OneAct(env, Act(env, w, x), y);
    OneAct(env, Act(env, Act(env, w, x), y), z);
  }

  // The message arrives and the sink starts on it, if it records anything.
  lemma OneIsBegun(env: Env, w: Worker, log: seq<Message>, msg: Message, now: int)
    requires Fed(env, w, log, now - 1)
    ensures var a := Act(env, w, Arrive(msg));
      var b := Act(env, a, Begin(now, true));
      && WorkerInv(env, b) && b.consumer.log == log + [msg] && b.consumer.loop.position == |log|
      && b.consumer.origin == 0 && CanFinish(env, b) && b.clock <= now && (b.pending.Some? ==> b.pending.value == now)
      && FirstSent(env, w, Arrive(msg)) == []
      && StartAfter(FirstSent(env, a, Begin(now, true)), now - 1)
  {
    var a := Act(env, w, Arrive(msg));
    AfterArrive(env, w, msg);
    ActKeepsWorker(env, a, Begin(now, true));
    assert w.consumer.loop.position == |log|;
    hide Captured, Ready, ConsumerRuns.Inv;
  }

  lemma OneIsFed(env: Env, w: Worker, log: seq<Message>, msg: Message, now: int)
    requires Fed(env, w, log, now - 1)
    ensures Fed(env, Acts(env, w, FeedOne(msg, now)), log + [msg], now)
    ensures StartAfter(Sent(env, w, FeedOne(msg, now)), now - 1)
  {
    var b := Act(env, Act(env, w, Arrive(msg)), Begin(now, true));
    OneIsBegun(env, w, log, msg, now);
    AfterTurn(env, b, true, true);
    assert StartAfter(FirstSent(env, b, Finish(true, true)), now - 1) by { hide Captured, Ready, Act; }
    hide Act, Sends, FirstSent, WorkerInv, CanFinish, ConsumerRuns.Inv, Acts, Sent;
    ThreeActs(env, w, Arrive(msg), Begin(now, true), Finish(true, true));
  }

  lemma NoneIsFed(env: Env, start: nat)
    ensures Fed(env, Acts(env, FirstWorker(env), Feed([], start)), [], start)
    ensures Sent(env, FirstWorker(env), Feed([], start)) == []
  {
    FirstWorkerIsReady(env);
    hide WorkerInv, FirstWorker, Act, Sends;
  }

  lemma StartConcat(a: seq<Step>, b: seq<Step>, start: int, later: int)
    requires StartAfter(a, start) && StartAfter(b, later) && start <= later
    ensures StartAfter(a + b, start)
  {
  }

  lemma FeedOf(log: seq<Message>, start: int)
    requires log != []
    ensures var init, msg := log[..|log| - 1], log[|log| - 1];
      Feed(log, start) == Feed(init, start) + FeedOne(msg, start + |log|) && init + [msg] == log
  {
  }

  lemma {:induction false} FeedIsFed(env: Env, log: seq<Message>, start: nat)
    ensures Fed(env, Acts(env, FirstWorker(env), Feed(log, start)), log, start + |log|)
    ensures StartAfter(Sent(env, FirstWorker(env), Feed(log, start)), start)
  {
    if log == [] {
      NoneIsFed(env, start);
      hide Fed, Acts, FirstWorker, Sent, Feed;
    } else {
      hide *;
      var init, msg, now := log[..|log| - 1], log[|log| - 1], start + |log|;
      FeedIsFed(env, init, start);
      FeedOf(log, start);
      var w := Acts(env, FirstWorker(env), Feed(init, start));
      ActsConcat(env, FirstWorker(env), Feed(init, start), FeedOne(msg, now));
      OneIsFed(env, w, init, msg, now);
      StartConcat(Sent(env, FirstWorker(env), Feed(init, start)), Sent(env, w, FeedOne(msg, now)), start, now - 1);
    }
  }

  // ---- Complete runs -------------------------------------------------------------------------------------

  // A run of all partitions with these logs, to the end.
  ghost predicate Complete(env: Env, logs: seq<seq<Message>>, moves: seq<Move>, at: int, s: System) {
    && Ran(env, |logs|, moves, at, s) && InsertsSucceed(moves) && |s.workers| == |logs|
    && forall q :: 0 <= q < |logs| ==> s.workers[q].consumer.log == logs[q] && Consumed(s.workers[q])
  }

  // In every complete run of messages spread like this, the entity ends up showing c.
  ghost predicate AlwaysShown(env: Env, logs: seq<seq<Message>>, entity: Entity, c: Option<Capture>) {
    forall moves, at, s :: Complete(env, logs, moves, at, s) ==> Shown(s.log, entity, at, c)
  }

  // Every partition that has messages of the entity ends with c.
  ghost predicate Agree(env: Env, logs: seq<seq<Message>>, entity: Entity, c: Option<Capture>) {
    && (forall q :: 0 <= q < |logs| && LastIn(env, logs[q], entity).Some? ==> LastIn(env, logs[q], entity) == c)
    && (c.Some? ==> exists q :: 0 <= q < |logs| && LastIn(env, logs[q], entity) == c)
  }

  // ---- Every partition can come last ---------------------------------------------------------------------

  function Longest(logs: seq<seq<Message>>): (n: nat)
    ensures forall p :: 0 <= p < |logs| ==> |logs[p]| <= n
  {
    if logs == [] then 0
    else
      var init, last := Longest(logs[..|logs| - 1]), |logs[|logs| - 1]|;
      if init < last then last else init
  }

  // All partitions are fed, q at the end and at later times.
  function Feeds(logs: seq<seq<Message>>, q: nat): (programs: seq<seq<Action>>)
    ensures |programs| == |logs|
    ensures forall p :: 0 <= p < |logs| ==> programs[p] == Feed(logs[p], StartOf(logs, p, q))
  {
    seq(|logs|, p requires 0 <= p < |logs| => Feed(logs[p], StartOf(logs, p, q)))
  }

  function StartOf(logs: seq<seq<Message>>, p: nat, q: nat): nat { if p == q then Longest(logs) else 0 }

  ghost predicate Succeed(actions: seq<Action>) {
    forall i :: 0 <= i < |actions| && actions[i].Finish? ==> actions[i].insertOk
  }

  lemma {:induction false} FeedSucceeds(log: seq<Message>, start: int)
    ensures Succeed(Feed(log, start))
  {
    if log != [] { FeedSucceeds(log[..|log| - 1], start); }
  }

  lemma {:induction false} OthersSucceed(programs: seq<seq<Action>>, n: nat, q: nat)
    requires n <= |programs| && forall p :: 0 <= p < |programs| ==> Succeed(programs[p])
    ensures InsertsSucceed(Others(programs, n, q))
  {
    if n > 0 { OthersSucceed(programs, n - 1, q); }
  }

  // The end of such a run.
  ghost predicate FedUp(env: Env, s: System, logs: seq<seq<Message>>, q: nat) {
    && |s.workers| == |logs|
    && (forall p :: 0 <= p < |logs| ==> Fed(env, s.workers[p], logs[p], StartOf(logs, p, q) + |logs[p]|))
    && exists steps :: EndsWith(s.log, q, steps) && StartAfter(steps, Longest(logs))
  }

  lemma FeedsAreFed(env: Env, logs: seq<seq<Message>>, q: nat)
    requires q < |logs|
    ensures FedUp(env, KafkaRuns.Run(env, Init(env, |logs|), Program(Feeds(logs, q), q)), logs, q)
  {
    var programs := Feeds(logs, q);
    ProgramRun(env, programs, q);
    forall p | 0 <= p < |logs|
      ensures Fed(env, Acts(env, FirstWorker(env), programs[p]), logs[p], StartOf(logs, p, q) + |logs[p]|)
    {
      FeedIsFed(env, logs[p], StartOf(logs, p, q));
    }
    FeedIsFed(env, logs[q], StartOf(logs, q, q));
    hide Acts, Sent, FirstWorker, Init, KafkaRuns.Run, Fed, Program, Longest, StartAfter, EndsWith, Feeds;
  }

  lemma FeedsSucceed(logs: seq<seq<Message>>, q: nat)
    requires q < |logs|
    ensures InsertsSucceed(Program(Feeds(logs, q), q))
  {
    var programs := Feeds(logs, q);
    hide Feed, Longest;
    forall p | 0 <= p < |logs| ensures Succeed(programs[p]) { FeedSucceeds(logs[p], StartOf(logs, p, q)); }
    OthersSucceed(programs, |logs|, q);
    hide Others, Feeds;
  }

  lemma FeedsRun(env: Env, logs: seq<seq<Message>>, q: nat) returns (moves: seq<Move>, at: int, s: System)
    requires q < |logs|
    ensures Complete(env, logs, moves, at, s) && FedUp(env, s, logs, q)
  {
    moves := Program(Feeds(logs, q), q);
    s := KafkaRuns.Run(env, Init(env, |logs|), moves);
    at := 2 * Longest(logs);
    FeedsAreFed(env, logs, q);
    FeedsSucceed(logs, q);
    hide Program, Feeds, WorkerInv, Init, KafkaRuns.Run, StartAfter, EndsWith, InsertsSucceed;
  }

  // Then the entity shows the last message of q.
  lemma AnyPartitionCanBeLast(env: Env, logs: seq<seq<Message>>, q: nat, entity: Entity)
    returns (moves: seq<Move>, at: int, s: System)
    requires q < |logs| && LastIn(env, logs[q], entity).Some?
    ensures Complete(env, logs, moves, at, s) && Shown(s.log, entity, at, LastIn(env, logs[q], entity))
  {
    moves, at, s := FeedsRun(env, logs, q);
    LastStepOfFed(env, logs, q, entity, moves, at, s);
    RanKeepsInv(env, |logs|, moves, at, s, entity, true);
    LastStepIs(s.log, q, entity);
    hide *;
    var i: nat :| IsLast(s.log, q, entity, i) && LastStep(s.log, q, entity) == Some(s.log[i].step);
    OthersAreBefore(env, logs, q, entity, s, i);
    TopInsertIsShown(env, s, at, q, entity, i);
    RowIsShown(s.log, entity, at, s.log[i].step.row, LastIn(env, logs[q], entity));
  }

  lemma LastStepOfFed(
      env: Env, logs: seq<seq<Message>>, q: nat, entity: Entity, moves: seq<Move>, at: int, s: System)
    requires q < |logs| && LastIn(env, logs[q], entity).Some?
    requires Complete(env, logs, moves, at, s) && FedUp(env, s, logs, q)
    ensures var last := LastStep(s.log, q, entity);
      last.Some? && last.value.Insert? && last.value.ok && RowSays(last.value.row, LastIn(env, logs[q], entity))
  {
    var w := s.workers[q];
    LastOnIs(env, w, entity);
    assert Fed(env, w, logs[q], StartOf(logs, q, q) + |logs[q]|);
    assert LastOn(env, w, entity) == LastIn(env, logs[q], entity);
    hide LastOn, LastIn, CaptureAt, Says, FedUp, WorkerInv, Ran, LastStep, RowSays;
    var o: nat :| LastSaid(env, w.consumer, o, entity) && LastOn(env, w, entity) == CaptureAt(env, w.consumer, o);
    OriginIsSeen(env, w, o, entity);
    SeenIsInserted(env, |logs|, moves, at, s, q, entity, o, true);
  }

  // The other partitions sent what they did before, with earlier times.
  lemma OthersAreBefore(env: Env, logs: seq<seq<Message>>, q: nat, entity: Entity, s: System, i: nat)
    requires q < |logs| && FedUp(env, s, logs, q) && LogInv(env, s)
    requires IsLast(s.log, q, entity, i) && s.log[i].step.Insert?
    ensures forall j :: 0 <= j < |s.log| && s.log[j].from != q ==>
      j < i && (s.log[j].step.Insert? ==> s.log[j].step.row.validFrom < s.log[i].step.row.validFrom)
  {
    hide Fed, Longest, LogInv;
    var steps :| EndsWith(s.log, q, steps) && StartAfter(steps, Longest(logs));
    EndsLate(s.log, q, steps, Longest(logs), i);
    hide *;
    forall j | 0 <= j < |s.log| && s.log[j].from != q
      ensures s.log[j].step.Insert? ==> s.log[j].step.row.validFrom <= Longest(logs)
    {
      OtherIsEarly(env, logs, q, s, j);
    }
  }

  lemma EndsLate(log: seq<Statement>, q: nat, steps: seq<Step>, start: int, i: nat)
    requires EndsWith(log, q, steps) && StartAfter(steps, start)
    requires i < |log| && log[i].from == q && log[i].step.Insert?
    ensures log[i].step.row.validFrom > start && forall j :: 0 <= j < |log| && log[j].from != q ==> j < i
  {
    var n := |log| - |steps|;
    assert forall j :: n <= j < |log| ==> log[j] == log[n..][j - n];
    assert forall j :: n <= j < |log| ==> log[j] == Statement(q, steps[j - n]);
  }

  lemma OtherIsEarly(env: Env, logs: seq<seq<Message>>, q: nat, s: System, j: nat)
    requires q < |logs| && FedUp(env, s, logs, q) && LogInv(env, s) && j < |s.log| && s.log[j].from != q
    ensures s.log[j].step.Insert? ==> s.log[j].step.row.validFrom <= Longest(logs)
  {
    var p := s.log[j].from;
    assert SentBy(env, s.workers[p], s.log[j].step);
    assert Fed(env, s.workers[p], logs[p], StartOf(logs, p, q) + |logs[p]|);
    assert |logs[p]| <= Longest(logs);
    hide WorkerInv, Longest, Says, Seen, RowSays, Consumed;
  }

  // ---- A group that starts at the end of the log -------------------------------------------------------

  // Everything arrives, and then the process crashes.
  function Skip(log: seq<Message>): seq<Action> { Arrivals(log) + [Crash] }

  function Arrivals(log: seq<Message>): seq<Action> {
    seq(|log|, i requires 0 <= i < |log| => Arrive(log[i]))
  }

  // Nothing was processed and nothing committed.
  ghost predicate Untouched(env: Env, w: Worker, log: seq<Message>) {
    WorkerInv(env, w) && w.consumer.log == log && w.consumer.loop.committed == None && w.clock == 0
  }

  lemma OneArrives(env: Env, w: Worker, log: seq<Message>, msg: Message)
    requires Untouched(env, w, log)
    ensures Untouched(env, Acts(env, w, [Arrive(msg)]), log + [msg]) && Sent(env, w, [Arrive(msg)]) == []
  {
    OneAct(env, w, Arrive(msg));
    AfterArrive(env, w, msg);
    assert FirstSent(env, w, Arrive(msg)) == [];
    hide Acts, Act, Sent, WorkerInv, FirstSent;
  }

  lemma NoneArrives(env: Env)
    ensures Untouched(env, Acts(env, FirstWorker(env), Arrivals([])), [])
    ensures Sent(env, FirstWorker(env), Arrivals([])) == []
  {
    FirstWorkerIsReady(env);
    hide WorkerInv, FirstWorker, Act, Sends;
  }

  lemma ArrivalsOf(log: seq<Message>)
    requires log != []
    ensures var init, msg := log[..|log| - 1], log[|log| - 1];
      Arrivals(log) == Arrivals(init) + [Arrive(msg)] && init + [msg] == log
  {
  }

  lemma {:induction false} ArrivalsRun(env: Env, log: seq<Message>)
    ensures Untouched(env, Acts(env, FirstWorker(env), Arrivals(log)), log)
    ensures Sent(env, FirstWorker(env), Arrivals(log)) == []
    decreases |log|
  {
    hide *;
    if log == [] {
      NoneArrives(env);
    } else {
      var init, msg := log[..|log| - 1], log[|log| - 1];
      ArrivalsRun(env, init);
      ArrivalsOf(log);
      ActsConcat(env, FirstWorker(env), Arrivals(init), [Arrive(msg)]);
      OneArrives(env, Acts(env, FirstWorker(env), Arrivals(init)), init, msg);
    }
  }

  // With nothing committed the group resumes at the end.
  lemma CrashSkips(env: Env, w: Worker)
    requires WorkerInv(env, w) && w.consumer.loop.committed == None && !env.config.fromFirstOffset
    ensures var t := Act(env, w, Crash);
      t.consumer.log == w.consumer.log && Consumed(t) && t.clock == w.clock
    ensures FirstSent(env, w, Crash) == []
  {
    AfterCrash(env, w);
    hide WorkerInv, Act;
  }

  lemma SkipRuns(env: Env, log: seq<Message>)
    requires !env.config.fromFirstOffset
    ensures var w := Acts(env, FirstWorker(env), Skip(log));
      w.consumer.log == log && Consumed(w) && w.clock == 0
    ensures Sent(env, FirstWorker(env), Skip(log)) == []
  {
    var w := Acts(env, FirstWorker(env), Arrivals(log));
    ArrivalsRun(env, log);
    assert Skip(log) == Arrivals(log) + [Crash];
    assert Untouched(env, w, log);
    hide Acts, Act, Sent, FirstWorker, WorkerInv, Arrivals, FirstSent, Skip, Consumed;
    ActsConcat(env, FirstWorker(env), Arrivals(log), [Crash]);
    OneAct(env, w, Crash);
    CrashSkips(env, w);
  }

  // All messages arrive before each process crashes, and the group resumes behind them: everything
  // is consumed and nothing is written.
  lemma SkippedLogsAreEmpty(env: Env, logs: seq<seq<Message>>)
    returns (moves: seq<Move>, at: int, s: System)
    requires !env.config.fromFirstOffset && logs != []
    ensures Complete(env, logs, moves, at, s) && forall entity :: Shown(s.log, entity, at, None)
  {
    var programs := seq(|logs|, p requires 0 <= p < |logs| => Skip(logs[p]));
    moves, at := Program(programs, 0), 0;
    s := KafkaRuns.Run(env, Init(env, |logs|), moves);
    ProgramRun(env, programs, 0);
    SkipsSucceed(logs, programs);
    SkippedEnds(env, logs, programs, s);
    hide *;
    hide Complete, Ran;
    forall entity ensures Shown(s.log, entity, at, None) { EmptyIsShown(entity, at); }
  }

  lemma SkippedEnds(env: Env, logs: seq<seq<Message>>, programs: seq<seq<Action>>, s: System)
    requires !env.config.fromFirstOffset && |programs| == |logs| == |s.workers|
    requires forall p :: 0 <= p < |logs| ==>
      programs[p] == Skip(logs[p]) && s.workers[p] == Acts(env, FirstWorker(env), programs[p])
    requires forall sent :: sent in s.log ==> SentByProgram(env, programs, sent)
    ensures s.log == []
    ensures forall p :: 0 <= p < |logs| ==>
      s.workers[p].consumer.log == logs[p] && Consumed(s.workers[p]) && s.workers[p].clock == 0
  {
    hide Acts, Sent, FirstWorker, Skip, Consumed;
    forall p | 0 <= p < |logs|
      ensures s.workers[p].consumer.log == logs[p] && Consumed(s.workers[p]) && s.workers[p].clock == 0
      ensures Sent(env, FirstWorker(env), programs[p]) == []
    {
      SkipRuns(env, logs[p]);
    }
    assert forall sent :: !SentByProgram(env, programs, sent);
    FirstIsIn(s.log);
  }

  lemma FirstIsIn(log: seq<Statement>)
    ensures log == [] || log[0] in log
  {
  }

  lemma SkipsSucceed(logs: seq<seq<Message>>, programs: seq<seq<Action>>)
    requires logs != [] && |programs| == |logs| && forall p :: 0 <= p < |logs| ==> programs[p] == Skip(logs[p])
    ensures InsertsSucceed(Program(programs, 0))
  {
    assert forall p :: 0 <= p < |programs| ==> Succeed(programs[p]);
    OthersSucceed(programs, |programs|, 0);
    hide Others;
  }

  lemma EmptyIsShown(entity: Entity, at: int)
    ensures Shown([], entity, at, None)
  {
    assert Steps([]) == [];
  }

  // The first message is processed but not committed, and the sink dies in the middle of the second.
  function Cut(older: Message, newer: Message): seq<Action> {
    [Arrive(older), Begin(1, true), Finish(true, false)] + [Arrive(newer), Begin(2, true), Crash]
  }

  // A message that records the entity arrives where everything is consumed, and the sink starts on it.
  lemma SinkStarts(env: Env, w: Worker, msg: Message, now: int, entity: Entity)
    requires WorkerInv(env, w) && Consumed(w) && w.pending.None? && w.clock < now && Captures(env, msg, entity)
    ensures var a := Act(env, w, Arrive(msg));
      var b := Act(env, a, Begin(now, true));
      && WorkerInv(env, b) && b.consumer.log == w.consumer.log + [msg] && b.consumer.loop == w.consumer.loop
      && b.pending == Some(now) && b.clock == now && Captured(env, b.consumer) == CaptureOf(env, msg)
      && FirstSent(env, w, Arrive(msg)) == [] && FirstSent(env, a, Begin(now, true)) == [Close(entity, now, true)]
      && b.consumer.loop.position == |w.consumer.log|
  {
    var a := Act(env, w, Arrive(msg));
    AfterArrive(env, w, msg);
    ActKeepsWorker(env, a, Begin(now, true));
    assert w.consumer.loop.position == |w.consumer.log| by { hide Captured; }
    Handled(env, a.consumer);
    hide Captured, CaptureOf, ConsumerRuns.Inv;
  }

  // The first process up to the end of its first message.
  function Written(env: Env, older: Message): Worker {
    Acts(env, FirstWorker(env), [Arrive(older), Begin(1, true), Finish(true, false)])
  }

  lemma OlderIsWritten(env: Env, older: Message, entity: Entity)
    requires Captures(env, older, entity)
    ensures var w := Written(env, older);
      && WorkerInv(env, w) && Consumed(w) && w.pending.None? && w.clock == 1
      && w.consumer.loop.committed == None && w.consumer.log == [older]
    ensures Sent(env, FirstWorker(env), [Arrive(older), Begin(1, true), Finish(true, false)])
         == [Close(entity, 1, true), Insert(RowOf(env, CaptureOf(env, older).value, 1), true)]
  {
    var w := FirstWorker(env);
    var a := Act(env, w, Arrive(older));
    var b := Act(env, a, Begin(1, true));
    FirstIsConsumed(env);
    SinkStarts(env, w, older, 1, entity);
    assert b.consumer.log == [older];
    SinkEnds(env, b, older);
    ThreeActs(env, w, Arrive(older), Begin(1, true), Finish(true, false));
    assert Written(env, older) == Act(env, b, Finish(true, false));
    hide *;
    var close, insert := Close(entity, 1, true), Insert(RowOf(env, CaptureOf(env, older).value, 1), true);
    assert [] + [close] + [insert] == [close, insert];
  }

  lemma FirstIsConsumed(env: Env)
    ensures var w := FirstWorker(env);
      && WorkerInv(env, w) && Consumed(w) && w.pending == None && w.clock == 0
      && w.consumer.log == [] && w.consumer.loop.committed == None && w.consumer.loop.position == 0
  {
    FirstWorkerIsReady(env);
    hide FirstWorker, WorkerInv;
  }

  lemma SinkEnds(env: Env, b: Worker, msg: Message)
    requires WorkerInv(env, b) && b.pending.Some? && b.consumer.log == [msg] && b.consumer.loop.position == 0
    requires Captured(env, b.consumer) == CaptureOf(env, msg) && CaptureOf(env, msg).Some?
    ensures var t := Act(env, b, Finish(true, false));
      && WorkerInv(env, t) && Consumed(t) && t.pending.None? && t.clock == b.clock && t.consumer.log == [msg]
      && t.consumer.loop.committed == b.consumer.loop.committed
      && FirstSent(env, b, Finish(true, false))
         == [Insert(RowOf(env, CaptureOf(env, msg).value, b.pending.value), true)]
  {
    AfterTurn(env, b, true, false);
    hide Act, Captured, CaptureOf, WorkerInv, RowOf;
  }

  lemma CutRuns(env: Env, older: Message, newer: Message, entity: Entity)
    requires !env.config.fromFirstOffset && Captures(env, older, entity) && Captures(env, newer, entity)
    ensures var w := Acts(env, FirstWorker(env), Cut(older, newer));
      w.consumer.log == [older, newer] && Consumed(w) && w.clock == 2
    ensures Sent(env, FirstWorker(env), Cut(older, newer))
         == [Close(entity, 1, true), Insert(RowOf(env, CaptureOf(env, older).value, 1), true), Close(entity, 2, true)]
  {
    var first, second := [Arrive(older), Begin(1, true), Finish(true, false)], [Arrive(newer), Begin(2, true), Crash];
    var w := Written(env, older);
    assert Cut(older, newer) == first + second && w == Acts(env, FirstWorker(env), first);
    hide *;
    OlderIsWritten(env, older, entity);
    NewerIsCut(env, w, newer, entity);
    ActsConcat(env, FirstWorker(env), first, second);
  }

  lemma NewerIsCut(env: Env, w: Worker, msg: Message, entity: Entity)
    requires WorkerInv(env, w) && Consumed(w) && w.pending.None? && w.clock == 1 && Captures(env, msg, entity)
    requires w.consumer.loop.committed == None && !env.config.fromFirstOffset
    ensures var t := Acts(env, w, [Arrive(msg), Begin(2, true), Crash]);
      t.consumer.log == w.consumer.log + [msg] && Consumed(t) && t.clock == 2
    ensures Sent(env, w, [Arrive(msg), Begin(2, true), Crash]) == [Close(entity, 2, true)]
  {
    var b := Act(env, Act(env, w, Arrive(msg)), Begin(2, true));
    hide *;
    SinkStarts(env, w, msg, 2, entity);
    CrashSkips(env, b);
    ThreeActs(env, w, Arrive(msg), Begin(2, true), Crash);
  }

  // No statement fails, everything is consumed, and an entity that was written shows nothing: a group
  // that starts at the end of the log resumes there, after a crash between the two statements of
  // its second message.
  lemma CutLosesTheEntity(env: Env, older: Message, newer: Message, entity: Entity)
    returns (moves: seq<Move>, s: System)
    requires !env.config.fromFirstOffset && Captures(env, older, entity) && Captures(env, newer, entity)
    ensures Complete(env, [[older, newer]], moves, 2, s) && Shown(s.log, entity, 2, None)
    ensures exists row :: row in Rows(s) && RowSays(row, CaptureOf(env, older))
    ensures forall i :: 0 <= i < |s.log| ==> s.log[i].step.ok
  {
    var logs := [[older, newer]];
    moves := On(0, Cut(older, newer));
    s := KafkaRuns.Run(env, Init(env, 1), moves);
    RunOn(env, Init(env, 1), 0, Cut(older, newer));
    CutRuns(env, older, newer, entity);
    OnlyFirst(env);
    var row := RowOf(env, CaptureOf(env, older).value, 1);
    assert row.entity == entity && RowSays(row, CaptureOf(env, older)) && row.validTo.None?;
    var w := Acts(env, FirstWorker(env), Cut(older, newer));
    hide *;
    assert s.workers == [w] && s.log == [] + From(0, Sent(env, FirstWorker(env), Cut(older, newer)));
    CutIsComplete(env, older, newer, w, moves, s);
    CutLog(s.log, entity, row, CaptureOf(env, older));
    HomeShowsIff(env, 1, moves, 2, s, 0, entity, None);
  }

  lemma CutIsComplete(env: Env, older: Message, newer: Message, w: Worker, moves: seq<Move>, s: System)
    requires s == KafkaRuns.Run(env, Init(env, 1), moves) && moves == On(0, Cut(older, newer)) && s.workers == [w]
    requires w.consumer.log == [older, newer] && Consumed(w) && w.clock == 2
    ensures Complete(env, [[older, newer]], moves, 2, s)
    ensures forall entity :: Home(env, s, 0, entity)
  {
    hide KafkaRuns.Run, Init, Says;
  }

  lemma OnlyFirst(env: Env)
    ensures Init(env, 1) == System([FirstWorker(env)], [])
  {
    hide FirstWorker;
  }

  lemma CutLog(log: seq<Statement>, entity: Entity, row: Row, c: Option<Capture>)
    requires row.entity == entity && row.validTo.None? && RowSays(row, c)
    requires log == From(0, [Close(entity, 1, true), Insert(row, true), Close(entity, 2, true)])
    ensures LastStep(log, 0, entity) == Some(Close(entity, 2, true))
    ensures forall i :: 0 <= i < |log| ==> log[i].step.ok
    ensures exists r :: r in Ledger.Run([], Steps(log)) && RowSays(r, c)
  {
    var steps := Steps(log);
    assert steps[1] == Insert(row, true);
    RowsAreFinal(steps, FinalRow(steps, 1));
    assert RowSays(FinalRow(steps, 1), c);
  }

  // ---- What is always shown ------------------------------------------------------------------------------

  // Without statements for it an entity shows nothing.
  lemma SilentEverywhere(env: Env, logs: seq<seq<Message>>, moves: seq<Move>, at: int, s: System, entity: Entity)
    requires Complete(env, logs, moves, at, s)
    requires forall q :: 0 <= q < |logs| ==> LastIn(env, logs[q], entity).None?
    ensures Shown(s.log, entity, at, None)
  {
    RanKeepsInv(env, |logs|, moves, at, s, entity, true);
    forall q, o: nat | 0 <= q < |logs| ensures !Says(env, s.workers[q].consumer, o, entity) {
      LastOnIs(env, s.workers[q], entity);
      assert LastOn(env, s.workers[q], entity) == LastIn(env, logs[q], entity);
    }
    hide LastIn, Says, Ran, LogInv, WorkersInv, Shown, InsertsAreOpen, Past;
    forall i | 0 <= i < |s.log| ensures StepEntity(s.log[i].step) != entity { SenderSays(env, s, i); }
    NothingIsShown(s, at, entity, 0);
    NoneIsShown(s.log, entity, at, None);
  }

  // With groups that start at the beginning of the log, the last statement of each partition for the
  // entity inserts its last message.
  lemma LastStepsAreInserts(
      env: Env, logs: seq<seq<Message>>, moves: seq<Move>, at: int, s: System, entity: Entity, q: nat)
    requires Complete(env, logs, moves, at, s) && env.config.fromFirstOffset && q < |logs|
    ensures var last, c := LastStep(s.log, q, entity), LastIn(env, logs[q], entity);
      && last.Some? == c.Some?
      && (last.Some? ==> last.value.Insert? && last.value.ok && RowSays(last.value.row, c))
  {
    var w := s.workers[q];
    RanKeepsInv(env, |logs|, moves, at, s, entity, true);
    assert WorkerInv(env, w) && EntityInv(env, w, LastStep(s.log, q, entity), entity, true);
    assert w.consumer.origin == 0;
    LastOnIs(env, w, entity);
    assert LastOn(env, w, entity) == LastIn(env, logs[q], entity);
    hide LastOn, LastIn, CaptureAt, Says, WorkerInv, EntityInv, Ran, LastStep, RowSays, Seen, LogInv, WorkersInv;
    if LastIn(env, logs[q], entity).Some? {
      var o: nat :| LastSaid(env, w.consumer, o, entity) && LastOn(env, w, entity) == CaptureAt(env, w.consumer, o);
      OriginIsSeen(env, w, o, entity);
      SeenIsInserted(env, |logs|, moves, at, s, q, entity, o, true);
    } else {
      ConsumedIsSettled(env, w, LastStep(s.log, q, entity), entity, true);
    }
  }

  // The last statement of all for the entity.
  lemma {:induction false} LastOfAll(log: seq<Statement>, entity: Entity, n: nat) returns (i: nat)
    requires n <= |log| && exists j :: 0 <= j < n && StepEntity(log[j].step) == entity
    ensures i < n && StepEntity(log[i].step) == entity
    ensures forall j :: i < j < n ==> StepEntity(log[j].step) != entity
  {
    if StepEntity(log[n - 1].step) == entity { return n - 1; }
    i := LastOfAll(log, entity, n - 1);
  }

  // When the last statement of every partition for the entity is a successful insert, the reader finds
  // the row of one of those.
  lemma SomeLastIsRead(s: System, at: int, entity: Entity) returns (i: nat)
    requires InOrder(s.log) && InsertsAreOpen(Steps(s.log)) && Past(Steps(s.log), at)
    requires exists j :: 0 <= j < |s.log| && StepEntity(s.log[j].step) == entity
    requires forall q: nat :: LastStep(s.log, q, entity).Some? ==>
      LastStep(s.log, q, entity).value.Insert? && LastStep(s.log, q, entity).value.ok
    ensures i < |s.log| && IsLast(s.log, s.log[i].from, entity, i) && s.log[i].step.Insert?
    ensures Newest(Rows(s), entity, at) == Some(s.log[i].step.row)
  {
    var steps := Steps(s.log);
    var last := LastOfAllStands(s, entity);
    ReaderAtEnd(steps, entity, at);
    hide LastStep, Newest, InsertsAreOpen, Past, InOrder, IsLast, NoCloseAfter, FinalRow, InForce, Ledger.Run;
    var found := Newest(Rows(s), entity, at);
    i :| Stands(steps, entity, i) && found == Some(steps[i].row)
      && forall j: nat :: Stands(steps, entity, j) ==> steps[j].row.validFrom <= found.value.validFrom;
    var p := s.log[i].from;
    LastStepIs(s.log, p, entity);
    var k: nat :| IsLast(s.log, p, entity, k) && LastStep(s.log, p, entity).value == s.log[k].step;
    LaterStands(s.log, entity, i, k);
  }

  lemma LastOfAllStands(s: System, entity: Entity) returns (last: nat)
    requires exists j :: 0 <= j < |s.log| && StepEntity(s.log[j].step) == entity
    requires forall q: nat :: LastStep(s.log, q, entity).Some? ==>
      LastStep(s.log, q, entity).value.Insert? && LastStep(s.log, q, entity).value.ok
    ensures Stands(Steps(s.log), entity, last)
  {
    last := LastOfAll(s.log, entity, |s.log|);
    IsLastIsLastStep(s.log, s.log[last].from, entity, last);
    hide LastStep;
  }

  // What a partition inserts after a row that stands, stands and is later.
  lemma LaterStands(log: seq<Statement>, entity: Entity, i: nat, k: nat)
    requires InOrder(log) && Stands(Steps(log), entity, i) && IsLast(log, log[i].from, entity, k)
    requires Inserts(log[k].step, entity)
    ensures i <= k && Stands(Steps(log), entity, k)
    ensures i < k ==> log[i].step.row.validFrom < log[k].step.row.validFrom
  {
  }

  // Then the row that is shown is one of those.
  lemma SomeLastIsShown(env: Env, logs: seq<seq<Message>>, moves: seq<Move>, at: int, s: System, entity: Entity)
    returns (q: nat)
    requires Complete(env, logs, moves, at, s) && env.config.fromFirstOffset
    requires exists p :: 0 <= p < |logs| && LastIn(env, logs[p], entity).Some?
    ensures q < |logs| && LastIn(env, logs[q], entity).Some?
    ensures Shown(s.log, entity, at, LastIn(env, logs[q], entity))
  {
    RanKeepsInv(env, |logs|, moves, at, s, entity, true);
    hide LastIn, Ran, WorkersInv, Shown, InsertsAreOpen, Past, LastStep, RowSays, AllSent, Newest;
    forall p: nat
      ensures LastStep(s.log, p, entity).Some? ==>
        p < |logs| && LastStep(s.log, p, entity).value.Insert? && LastStep(s.log, p, entity).value.ok
        && RowSays(LastStep(s.log, p, entity).value.row, LastIn(env, logs[p], entity))
        && LastIn(env, logs[p], entity).Some?
      ensures p < |logs| && LastIn(env, logs[p], entity).Some? ==> LastStep(s.log, p, entity).Some?
    {
      LastStepIs(s.log, p, entity);
      if p < |logs| {
        LastStepsAreInserts(env, logs, moves, at, s, entity, p);
      } else {
        assert LogInv(env, s);
        SendersAreWorkers(env, s);
      }
    }
    var p :| 0 <= p < |logs| && LastIn(env, logs[p], entity).Some?;
    LastStepIs(s.log, p, entity);
    var i := SomeLastIsRead(s, at, entity);
    q := s.log[i].from;
    IsLastIsLastStep(s.log, q, entity, i);
    RowIsShown(s.log, entity, at, s.log[i].step.row, LastIn(env, logs[q], entity));
  }

  lemma SendersAreWorkers(env: Env, s: System)
    requires LogInv(env, s)
    ensures forall i :: 0 <= i < |s.log| ==> s.log[i].from < |s.workers|
  {
    hide SentBy;
  }

  lemma OneAgrees(env: Env, logs: seq<seq<Message>>, entity: Entity, c: Option<Capture>)
    requires Agree(env, logs, entity, c)
    ensures if c.None? then forall q :: 0 <= q < |logs| ==> LastIn(env, logs[q], entity).None?
            else exists q :: 0 <= q < |logs| && LastIn(env, logs[q], entity).Some?
  {
    hide LastIn;
  }

  // The publisher's balancer does not look at message keys, so the messages of one entity can be
  // spread over the partitions of their topic, whose processes interleave their closes and inserts;
  // and a group that starts at the end of a log can miss what is there. What the entity shows at the
  // end is decided exactly when all the partitions end with the same record of it and, if there is
  // one, the group starts at the beginning.
  lemma LastIsShownIff(env: Env, logs: seq<seq<Message>>, entity: Entity, c: Option<Capture>)
    requires logs != []
    ensures AlwaysShown(env, logs, entity, c) <==>
      Agree(env, logs, entity, c) && (c.None? || env.config.fromFirstOffset)
  {
    hide Complete, Shown, LastIn;
    if Agree(env, logs, entity, c) && (c.None? || env.config.fromFirstOffset) {
      OneAgrees(env, logs, entity, c);
      forall moves, at, s | Complete(env, logs, moves, at, s) ensures Shown(s.log, entity, at, c) {
        if c.None? {
          SilentEverywhere(env, logs, moves, at, s, entity);
        } else {
          var q := SomeLastIsShown(env, logs, moves, at, s, entity);
          assert LastIn(env, logs[q], entity) == c;
        }
      }
    }
    if AlwaysShown(env, logs, entity, c) {
      AlwaysAgrees(env, logs, entity, c);
    }
  }

  lemma AlwaysAgrees(env: Env, logs: seq<seq<Message>>, entity: Entity, c: Option<Capture>)
    requires logs != [] && AlwaysShown(env, logs, entity, c)
    ensures Agree(env, logs, entity, c) && (c.None? || env.config.fromFirstOffset)
  {
    hide Complete, Shown, LastIn;
    forall q | 0 <= q < |logs| && LastIn(env, logs[q], entity).Some? ensures LastIn(env, logs[q], entity) == c {
      var moves, at, s := AnyPartitionCanBeLast(env, logs, q, entity);
      OnlyOneIsShown(s.log, entity, at, c, LastIn(env, logs[q], entity));
    }
    if forall q :: 0 <= q < |logs| ==> LastIn(env, logs[q], entity).None? {
      var moves, at, s := FeedsRun(env, logs, 0);
      SilentEverywhere(env, logs, moves, at, s, entity);
      OnlyOneIsShown(s.log, entity, at, c, None);
    }
    if !env.config.fromFirstOffset {
      var moves, at, s := SkippedLogsAreEmpty(env, logs);
      OnlyOneIsShown(s.log, entity, at, c, None);
    }
  }
}
