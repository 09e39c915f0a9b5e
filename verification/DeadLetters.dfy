// Publishing dead letters (kafka/dlq.go): exactly when one is written, and on which topic.
module DeadLetters {
  import opened Text
  import opened Json
  import opened Schema
  import opened Events
  import opened EventTypes
  import opened Publisher
  import opened Wrappers

  function Decimal(n: int): string { if n < 0 then "-" + Itoa(-n) else Itoa(n) }

  // The metadata of a dead letter: that of the event, and where, after how many attempts and why
  // it failed.
  function Annotated(
      metadata: map<string, Json>, sourceTopic: string, attempt: int, lastErr: Option<string>): map<string, Json>
  {
    metadata + map["dlq_source_topic" := Str(sourceTopic), "dlq_attempt" := Str(Decimal(attempt))]
    + if lastErr.Some? then map["dlq_error" := Str(lastErr.value)] else map[]
  }

  // The metadata of a dead letter, key by key.
  ghost predicate SaysWhy(
      f: map<string, Json>, metadata: map<string, Json>, sourceTopic: string, attempt: int, lastErr: Option<string>)
  {
    && "dlq_source_topic" in f && f["dlq_source_topic"] == Str(sourceTopic)
    && "dlq_attempt" in f
    && f["dlq_attempt"] == Str(if attempt < 0 then "-" + Itoa(-attempt) else Itoa(attempt))
    && (lastErr.Some? ==> "dlq_error" in f && f["dlq_error"] == Str(lastErr.value))
    && forall k :: k != "dlq_source_topic" && k != "dlq_attempt" && (k != "dlq_error" || lastErr.None?) ==>
         (k in f <==> k in metadata) && (k in f ==> f[k] == metadata[k])
  }

  lemma AnnotatedSaysWhy(metadata: map<string, Json>, sourceTopic: string, attempt: int, lastErr: Option<string>)
    ensures SaysWhy(Annotated(metadata, sourceTopic, attempt, lastErr), metadata, sourceTopic, attempt, lastErr)
  {
  }

  function LetterOf(
      eventType: string, suffix: string, data: EventData, sourceTopic: string, attempt: int,
      lastErr: Option<string>, now: string): Event
  {
    Event(eventType + suffix, data.(metadata := Annotated(data.metadata, sourceTopic, attempt, lastErr)), now)
  }

  // The type under which a failed message is published: the one the consumer names, else that of the
  // event, else a fallback.
  function TypeFor(named: string, event: Option<CloudEvent>): string {
    if named != "" then named
    else if event.Some? && event.value.typ != "" then event.value.typ
    else "unknown"
  }

  class DLQProducer {
    const publisher: KafkaPublisher?
    const suffix: string

    constructor (publisher: KafkaPublisher?, suffix: string)
      ensures this.publisher == publisher && this.suffix == if suffix == "" then ".dlq" else suffix
    {
      this.publisher := publisher;
      this.suffix := if suffix == "" then ".dlq" else suffix;
    }

    // A dead letter is the event under the type with the suffix, with the failure in its metadata.
    method Send(schemas: Schemas, sourceTopic: string, eventType: string, data: EventData, attempt: int,
                lastErr: Option<string>, now: string, writeOk: bool)
      returns (result: Result<(), PublishError>)
      modifies publisher
      ensures publisher == null ==> result == Ok(())
      ensures publisher != null && result.Ok? ==>
        var metadata := Annotated(data.metadata, sourceTopic, attempt, lastErr);
        && SaysWhy(metadata, data.metadata, sourceTopic, attempt, lastErr)
        && |publisher.written| == |old(publisher.written)| + 1
        && Carries(publisher.written[|old(publisher.written)|], publisher.topicPrefix,
                   Event(eventType + suffix, data.(metadata := metadata), now))
      ensures publisher != null ==>
        var e := LetterOf(eventType, suffix, data, sourceTopic, attempt, lastErr, now);
        if writeOk && Refuse(schemas, publisher.validationOff, e).None?
        then result == Ok(()) && publisher.written == old(publisher.written) + [MessageFor(publisher.topicPrefix, e)]
        else result.Err? && publisher.written == old(publisher.written)
    {
      if publisher == null { return Ok(()); }
      var metadata := data.metadata;
      metadata := metadata["dlq_source_topic" := Str(sourceTopic)];
      metadata := metadata["dlq_attempt" := Str(Decimal(attempt))];
      if lastErr.Some? {
        metadata := metadata["dlq_error" := Str(lastErr.value)];
      }
      assert metadata == Annotated(data.metadata, sourceTopic, attempt, lastErr);
      AnnotatedSaysWhy(data.metadata, sourceTopic, attempt, lastErr);
      hide Annotated, SaysWhy, Carries;
      result := publisher.Publish(schemas, Event(eventType + suffix, data.(metadata := metadata), now), writeOk);
    }

    // The dead-letter function of a consumer. `event` is the decoded message, if it decodes, and
    // `data` what was recovered of its data. Nothing is reported when publishing fails.
    method HandleFailed(schemas: Schemas, topic: string, named: string, event: Option<CloudEvent>, data: EventData,
                        retryCount: int, lastErr: Option<string>, now: string, writeOk: bool)
      modifies publisher
      ensures TypeFor(named, event) == (
        if named != "" then named else if event.Some? && event.value.typ != "" then event.value.typ else "unknown")
      ensures publisher != null ==>
        var e := LetterOf(TypeFor(named, event), suffix, data, topic, retryCount, lastErr, now);
        publisher.written == old(publisher.written)
          + if writeOk && Refuse(schemas, publisher.validationOff, e).None?
            then [MessageFor(publisher.topicPrefix, e)] else []
    {
      var eventType := named;
      if eventType == "" && event.Some? {
        eventType := event.value.typ;
      }
      if eventType == "" {
        eventType := "unknown";
      }
      var _ := Send(schemas, topic, eventType, data, retryCount, lastErr, now, writeOk);
    }
  }

  // ---- When a dead letter is written ------------------------------------------------------------------

  lemma {:induction false} SegmentsAppend(s: string, d: string)
    requires DotFree(d)
    ensures Segments(s + "." + d) == Segments(s) + [d]
    decreases |s|
  {
    var t := s + "." + d;
    if s == "" {
      OnlySegment(d);
      assert t[0] == '.' && t[1..] == d;
    } else {
      assert t[0] == s[0] && t[1..] == s[1..] + "." + d;
      SegmentsAppend(s[1..], d);
      var rest := Segments(s[1..]);
      assert (rest + [d])[0] == rest[0] && (rest + [d])[1..] == rest[1..] + [d];
    }
  }

  // A domain segment and at least one further one.
  predicate HasTopic(eventType: string) {
    var segs := Segments(eventType);
    |segs| >= 2 && DomainSegment(segs[0]) && forall i :: 1 <= i < |segs| ==> NameSegment(segs[i])
  }

  lemma DefaultSuffixIsValidIff(eventType: string)
    ensures ValidEventType(eventType + ".dlq") <==> HasTopic(eventType)
  {
    SegmentsAppend(eventType, "dlq");
    var segs := Segments(eventType);
    assert eventType + ".dlq" == eventType + "." + "dlq" && NameSegment("dlq");
    assert forall i :: 0 <= i < |segs| ==> (segs + ["dlq"])[i] == segs[i];
    hide Segments, DomainSegment, NameSegment;
    if ValidEventType(eventType + ".dlq") {
      assert |segs + ["dlq"]| >= 3;
    }
  }

  // Checking publishers write the dead letter of a type exactly when the type has a topic, the
  // type with the suffix is registered, and the schema registered for that takes the event with
  // the failure in its metadata.
  lemma LetterIsTakenIff(
      schemas: Schemas, validationOff: bool, eventType: string, data: EventData, sourceTopic: string, attempt: int,
      lastErr: Option<string>, now: string)
    ensures var e := LetterOf(eventType, ".dlq", data, sourceTopic, attempt, lastErr, now);
      Refuse(schemas, validationOff, e).None? <==>
        && HasTopic(eventType)
        && (validationOff ||
              (eventType + ".dlq" in schemas && Conforms(schemas[eventType + ".dlq"], DataJson(e.data))))
  {
    DefaultSuffixIsValidIff(eventType);
    hide ValidEventType, HasTopic, Conforms, DataJson, Annotated;
  }

  // The keys that sending adds.
  predicate Added(key: string, lastErr: Option<string>) {
    key == "dlq_source_topic" || key == "dlq_attempt" || (key == "dlq_error" && lastErr.Some?)
  }

  // Under an envelope schema the event needs its resource, the required keys that sending does not
  // add, and the other values the schema asks for; the failure has to fit what the schema says of it.
  lemma EnvelopeLetterIsTakenIff(
      schemas: Schemas, eventType: string, data: EventData, sourceTopic: string, attempt: int,
      lastErr: Option<string>, now: string, required: seq<string>, props: map<string, Option<SchemaNode>>)
    requires eventType + ".dlq" in schemas && schemas[eventType + ".dlq"] == DataSchema(required, props)
    ensures var e := LetterOf(eventType, ".dlq", data, sourceTopic, attempt, lastErr, now);
      Refuse(schemas, false, e).None? <==>
        && HasTopic(eventType) && data.resourceType != "" && data.resourceId != ""
        && (forall k :: k in required ==> Added(k, lastErr) || (k in data.metadata && data.metadata[k] != Null))
        && (forall k :: k in props && props[k].Some? && Added(k, lastErr) ==>
              Conforms(props[k].value, e.data.metadata[k]))
        && (forall k | k in props && props[k].Some? && !Added(k, lastErr) ::
              k in data.metadata && data.metadata[k] != Null ==> Conforms(props[k].value, data.metadata[k]))
  {
    var e := LetterOf(eventType, ".dlq", data, sourceTopic, attempt, lastErr, now);
    LetterIsTakenIff(schemas, false, eventType, data, sourceTopic, attempt, lastErr, now);
    EnvelopeIff(required, props, e.data);
    AnnotatedKeys(data.metadata, sourceTopic, attempt, lastErr);
    hide HasTopic, Conforms, DataJson, Annotated, DataSchema, Refuse;
  }

  lemma AnnotatedKeys(metadata: map<string, Json>, sourceTopic: string, attempt: int, lastErr: Option<string>)
    ensures var f := Annotated(metadata, sourceTopic, attempt, lastErr);
      && (forall k :: k in f <==> k in metadata || Added(k, lastErr))
      && (forall k :: k in f ==> if Added(k, lastErr) then f[k].Str? else f[k] == metadata[k])
  {
    hide Decimal;
  }

  // ---- On which topic it is written -------------------------------------------------------------------

  // A dead letter does not go to a topic of its own: any that is written goes to the topic of its
  // event type, among the events it failed among.
  lemma LetterTopic(
      schemas: Schemas, validationOff: bool, prefix: string, eventType: string, data: EventData, sourceTopic: string,
      attempt: int, lastErr: Option<string>, now: string)
    requires Refuse(schemas, validationOff, LetterOf(eventType, ".dlq", data, sourceTopic, attempt, lastErr, now)).None?
    ensures MessageFor(prefix, LetterOf(eventType, ".dlq", data, sourceTopic, attempt, lastErr, now)).topic
         == TopicFromEventType(prefix, eventType)
  {
    LetterIsTakenIff(schemas, validationOff, eventType, data, sourceTopic, attempt, lastErr, now);
    SegmentsAppend(eventType, "dlq");
    assert eventType + ".dlq" == eventType + "." + "dlq";
    hide Segments, NewCloudEvent, Annotated, Refuse, Conforms, DataJson;
  }

  // The fallback has no topic: what does not decode leaves no dead letter.
  lemma UndecodableIsDropped(
      schemas: Schemas, validationOff: bool, data: EventData, sourceTopic: string, attempt: int,
      lastErr: Option<string>, now: string)
    ensures Refuse(schemas, validationOff,
        LetterOf(TypeFor("", None), ".dlq", data, sourceTopic, attempt, lastErr, now)) == Some(BadEventType)
  {
    OnlySegment("unknown");
    DefaultSuffixIsValidIff("unknown");
    hide Segments, ValidEventType, Annotated;
  }
}
