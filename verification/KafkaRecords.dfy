// From one end to the other: what was recorded on the publishing side, and what the ledger shows of it
// (timetravel/kafka_recorder.go, kafka/publisher.go, kafka/consumer.go).
module KafkaRecords {
  import opened Events
  import opened Publisher
  import opened Ledger
  import opened KafkaLedger
  import opened KafkaRuns
  import opened KafkaShown
  import opened KafkaSpread
  import opened Wrappers
  import ConsumerRuns

  // One call of RecordEntity on the publishing side.
  datatype Recording = Recording(
    prefix: string, writer: string, ctx: Option<ChangeContext>, kind: string, id: string, raw: string, now: string)

  function EventOf(r: Recording): Event {
    Event(EVENT_TYPE, SnapshotEvent(r.writer, r.ctx, r.kind, r.id, r.raw), r.now)
  }

  function RecordMessage(r: Recording): Message { MessageFor(r.prefix, EventOf(r)).message }

  // The publisher took it, and checks with the consumer's registry, where the event type has an
  // envelope schema, unless the consumer checks nothing.
  ghost predicate Published(env: Env, r: Recording) {
    || env.config.validationOff
    || (Refuse(env.schemas, false, EventOf(r)).None? && HasEnvelopeSchema(env.schemas, EVENT_TYPE))
  }

  function EntityOf(r: Recording): Entity { Entity(r.kind, r.id) }

  // What recording it puts into the ledger: nothing when the payload is not JSON or the retry limit
  // leaves no attempt.
  function Recorded(env: Env, r: Recording): Option<Capture> {
    if env.config.maxRetries < 1 || env.compact(r.raw).None? then None
    else Some(Capture(EntityOf(r), env.compact(r.raw).value, ChangeContextFromContext(r.ctx)))
  }

  ghost predicate Taken(env: Env, r: Recording) { r.kind != "" && r.id != "" && Published(env, r) }

  // The consumer accepts whatever the publisher took, and its sink records it.
  lemma RecordIsCaptured(env: Env, r: Recording)
    requires Taken(env, r)
    ensures CaptureOf(env, RecordMessage(r)) == Recorded(env, r)
  {
    RecordedSnapshotsArriveUnchanged(r.writer, r.ctx, r.kind, r.id, r.raw, r.now);
    if !env.config.validationOff {
      BothSidesAgree(env.schemas, EVENT_TYPE, SnapshotEvent(r.writer, r.ctx, r.kind, r.id, r.raw), r.now);
    }
    hide KafkaLedger.Handle, SnapshotEvent, ConsumerAccepts, PublisherAccepts, NewCloudEvent, HasEnvelopeSchema;
  }

  // Message o is the last of its entity, and was recorded so.
  ghost predicate LastRecorded(env: Env, w: Worker, o: nat, r: Recording) {
    && o < |w.consumer.log| && w.consumer.log[o] == RecordMessage(r) && Taken(env, r)
    && LastSaid(env, w.consumer, o, EntityOf(r))
  }

  lemma LastRecordedIsLastOn(env: Env, w: Worker, o: nat, r: Recording)
    requires LastRecorded(env, w, o, r)
    ensures LastOn(env, w, EntityOf(r)) == Recorded(env, r)
  {
    RecordIsCaptured(env, r);
    LastSaidIsLastOn(env, w, o, EntityOf(r));
    hide LastOn, CaptureOf, RecordMessage, Recorded, Taken;
  }

  // What was last recorded of an entity whose messages share a partition is what the ledger shows
  // of it once that partition is consumed, from the record or an earlier one on.
  lemma LatestRecordIsShown(
      env: Env, partitions: nat, moves: seq<Move>, at: int, s: System, p: nat, o: nat, r: Recording)
    requires Ran(env, partitions, moves, at, s) && InsertsSucceed(moves)
    requires Home(env, s, p, EntityOf(r)) && Consumed(s.workers[p])
    requires LastRecorded(env, s.workers[p], o, r) && s.workers[p].consumer.origin <= o
    ensures Shown(s.log, EntityOf(r), at, Recorded(env, r))
  {
    var w := s.workers[p];
    LastRecordedIsLastOn(env, w, o, r);
    assert Reached(env, w, EntityOf(r)) by { hide Says; }
    hide Ran, InsertsSucceed, Home, Consumed, Reached, Shown, LastOn, Recorded;
    ConsumedLogIsShown(env, partitions, moves, at, s, p, EntityOf(r));
  }

  // There is such a run for every record that stores something.
  lemma OneRecordIsShown(env: Env, r: Recording) returns (moves: seq<Move>, at: int, s: System)
    requires Taken(env, r) && Recorded(env, r).Some?
    ensures Complete(env, [[RecordMessage(r)]], moves, at, s)
    ensures Shown(s.log, EntityOf(r), at, Recorded(env, r))
  {
    OneMessage(env, r);
    hide Complete, Shown, LastIn, Recorded, RecordMessage;
    moves, at, s := AnyPartitionCanBeLast(env, [[RecordMessage(r)]], 0, EntityOf(r));
  }

  lemma OneMessage(env: Env, r: Recording)
    requires Taken(env, r)
    ensures LastIn(env, [RecordMessage(r)], EntityOf(r)) == Recorded(env, r)
  {
    var log := [RecordMessage(r)];
    RecordIsCaptured(env, r);
    hide CaptureOf, RecordMessage;
    assert LastFor(env, log, 0, EntityOf(r)) == None;
    assert LastFor(env, log, 1, EntityOf(r))
        == if Captures(env, log[0], EntityOf(r)) then CaptureOf(env, log[0]) else None;
  }

  // It is shown in every complete run exactly when the group starts at the beginning of the log.
  lemma OneRecordIsAlwaysShownIff(env: Env, r: Recording)
    requires Taken(env, r) && Recorded(env, r).Some?
    ensures AlwaysShown(env, [[RecordMessage(r)]], EntityOf(r), Recorded(env, r)) <==> env.config.fromFirstOffset
  {
    var logs := [[RecordMessage(r)]];
    hide *;
    OneMessage(env, r);
    OneLogAgrees(env, logs[0], EntityOf(r));
    LastIsShownIff(env, logs, EntityOf(r), Recorded(env, r));
  }

  lemma OneLogAgrees(env: Env, log: seq<Message>, entity: Entity)
    ensures Agree(env, [log], entity, LastIn(env, log, entity))
  {
    hide LastIn;
    assert [log][0] == log;
  }

  // Two records of one entity on two partitions: the one published last need not be shown.
  lemma SpreadRecordsCanGoBack(env: Env, older: Recording, newer: Recording)
    requires Taken(env, older) && Taken(env, newer) && EntityOf(older) == EntityOf(newer)
    requires Recorded(env, older).Some? && Recorded(env, older) != Recorded(env, newer)
    ensures var logs := [[RecordMessage(older)], [RecordMessage(newer)]];
      !AlwaysShown(env, logs, EntityOf(newer), Recorded(env, newer))
  {
    var logs := [[RecordMessage(older)], [RecordMessage(newer)]];
    OneMessage(env, older);
    assert LastIn(env, logs[0], EntityOf(newer)) == Recorded(env, older);
    hide AlwaysShown, LastIn, RecordMessage, Recorded;
    LastIsShownIff(env, logs, EntityOf(newer), Recorded(env, newer));
  }
}
