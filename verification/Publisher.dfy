// Publishing: the event envelope, its schema, and the check on both sides of the wire
// (kafka/publisher.go, kafka/event.go, kafka/event_taxonomy.go, kafka/schema_validator.go,
// kafka/consumer.go).
module Publisher {
  import opened Json
  import opened Schema
  import opened Events
  import opened EventTypes
  import opened Wrappers

  // ---- The envelope ------------------------------------------------------------------------

  // A time by the text encoding/json prints for it.
  datatype Timestamp = ZeroTime | At(text: string)

  datatype EventData = EventData(
    actorId: string, actorType: string, resourceType: string, resourceId: string,
    organizationId: string, teamId: string, metadata: map<string, Json>, timestamp: Timestamp)

  const ZERO_TIME := "0001-01-01T00:00:00Z"

  function TimestampText(t: Timestamp): string {
    match t case ZeroTime => ZERO_TIME case At(text) => text
  }

  // A field with omitempty.
  function OrOmit(key: string, omit: bool, value: Json): map<string, Json> {
    if omit then map[] else map[key := value]
  }

  // The data object on the wire.
  function DataJson(d: EventData): (v: Json)
    ensures v.Obj?
  {
    Obj(Omittable(d) + Always(d))
  }

  function Always(d: EventData): map<string, Json> {
    map["actor_id" := Str(d.actorId), "resource_type" := Str(d.resourceType),
        "resource_id" := Str(d.resourceId), "timestamp" := Str(TimestampText(d.timestamp))]
  }

  function Omittable(d: EventData): map<string, Json> {
    OrOmit("actor_type", d.actorType == "", Str(d.actorType))
    + OrOmit("organization_id", d.organizationId == "", Str(d.organizationId))
    + OrOmit("team_id", d.teamId == "", Str(d.teamId))
    + OrOmit("metadata", d.metadata == map[], Obj(d.metadata))
  }

  // A zero timestamp becomes the current time.
  function Stamped(d: EventData, now: string): EventData {
    if d.timestamp.ZeroTime? then d.(timestamp := At(now)) else d
  }

  function NewCloudEvent(eventType: string, d: EventData, now: string): CloudEvent {
    CloudEvent(eventType, Some(DataJson(Stamped(d, now))))
  }

  // ---- The envelope schema --------------------------------------------------------------------

  function OfType(typ: string): SchemaNode {
    SchemaNode(typ, [], map[], None, [], None, None, None, None)
  }

  function DataSchema(requiredMetadata: seq<string>, metadataProps: map<string, Option<SchemaNode>>): SchemaNode {
    OfType("object").(
      required := ["resource_type", "resource_id", "timestamp"] + (if requiredMetadata == [] then [] else ["metadata"]),
      properties := map[
        "actor_id" := Some(OfType("string")),
        "actor_type" := Some(OfType("string")),
        "resource_type" := Some(OfType("string").(minLength := Some(1))),
        "resource_id" := Some(OfType("string").(minLength := Some(1))),
        "organization_id" := Some(OfType("string")),
        "team_id" := Some(OfType("string")),
        "timestamp" := Some(OfType("string")),
        "metadata" := Some(OfType("object").(required := requiredMetadata, properties := metadataProps))])
  }

  // What an event needs to pass an envelope schema. The timestamp plays no part.
  ghost predicate Acceptable(
      requiredMetadata: seq<string>, metadataProps: map<string, Option<SchemaNode>>, d: EventData)
  {
    && d.resourceType != "" && d.resourceId != ""
    && (forall r :: r in requiredMetadata ==> r in d.metadata && d.metadata[r] != Null)
    && (forall k :: k in metadataProps && metadataProps[k].Some? && k in d.metadata && d.metadata[k] != Null ==>
          Conforms(metadataProps[k].value, d.metadata[k]))
  }

  lemma StringField(minLength: Option<int>, s: string)
    ensures Conforms(OfType("string").(minLength := minLength), Str(s))
       <==> (minLength.Some? ==> ByteLen(s) >= minLength.value)
  {
  }

  // The members of the data object.
  lemma DataFields(d: EventData)
    ensures var f := DataJson(d).fields;
      && "resource_type" in f && f["resource_type"] == Str(d.resourceType)
      && "resource_id" in f && f["resource_id"] == Str(d.resourceId)
      && "timestamp" in f && f["timestamp"] == Str(TimestampText(d.timestamp))
      && "actor_id" in f && f["actor_id"].Str?
      && ("actor_type" in f ==> f["actor_type"].Str?)
      && ("organization_id" in f ==> f["organization_id"].Str?)
      && ("team_id" in f ==> f["team_id"].Str?)
      && ("metadata" in f <==> d.metadata != map[])
      && ("metadata" in f ==> f["metadata"] == Obj(d.metadata))
  {
    OmittedMembers(d);
    hide Omittable;
  }

  lemma OmittedMembers(d: EventData)
    ensures var f := Omittable(d);
      && f.Keys <= {"actor_type", "organization_id", "team_id", "metadata"}
      && (if d.actorType == "" then "actor_type" !in f else "actor_type" in f && f["actor_type"] == Str(d.actorType))
      && (if d.organizationId == "" then "organization_id" !in f
          else "organization_id" in f && f["organization_id"] == Str(d.organizationId))
      && (if d.teamId == "" then "team_id" !in f else "team_id" in f && f["team_id"] == Str(d.teamId))
      && (if d.metadata == map[] then "metadata" !in f else "metadata" in f && f["metadata"] == Obj(d.metadata))
  {
  }

  ghost predicate RequiredPresent(required: seq<string>, f: map<string, Json>) {
    forall r :: r in required ==> r in f && f[r] != Null
  }

  ghost predicate PropertiesConform(properties: map<string, Option<SchemaNode>>, f: map<string, Json>) {
    forall k :: k in properties && properties[k].Some? && k in f && f[k] != Null ==> Conforms(properties[k].value, f[k])
  }

  predicate TakesObjects(n: SchemaNode) { n.typ != "" ==> HasType(Obj(map[]), n.typ) }

  lemma ObjectConforms(n: SchemaNode, f: map<string, Json>)
    ensures Conforms(n, Obj(f))
       <==> TakesObjects(n) && RequiredPresent(n.required, f) && PropertiesConform(n.properties, f)
  {
  }

  function EnvelopeProperties(metadataNode: SchemaNode): map<string, Option<SchemaNode>> {
    DataSchema([], map[]).properties["metadata" := Some(metadataNode)]
  }

  ghost predicate PropertyHolds(metadataNode: SchemaNode, d: EventData, k: string) {
    if k == "resource_type" then d.resourceType != ""
    else if k == "resource_id" then d.resourceId != ""
    else if k == "metadata" then Conforms(metadataNode, Obj(d.metadata))
    else true
  }

  lemma PropertyNode(metadataNode: SchemaNode, k: string)
    requires k in EnvelopeProperties(metadataNode)
    ensures EnvelopeProperties(metadataNode)[k] == Some(
      if k == "metadata" then metadataNode
      else OfType("string").(minLength := if k == "resource_type" || k == "resource_id" then Some(1) else None))
    ensures k in {"actor_id", "actor_type", "resource_type", "resource_id",
                  "organization_id", "team_id", "timestamp", "metadata"}
  {
  }

  lemma NonEmptyText(s: string)
    ensures ByteLen(s) >= 1 <==> s != ""
  {
  }

  // One property at a time: only three of the envelope's properties can fail.
  lemma EnvelopeProperty(metadataNode: SchemaNode, d: EventData, k: string)
    requires k in EnvelopeProperties(metadataNode) && k in DataJson(d).fields
    ensures Conforms(EnvelopeProperties(metadataNode)[k].value, DataJson(d).fields[k])
           <==> PropertyHolds(metadataNode, d, k)
  {
    var f := DataJson(d).fields;
    DataFields(d);
    PropertyNode(metadataNode, k);
    hide DataJson, Conforms, EnvelopeProperties, DataSchema, OfType, ByteLen, TimestampText, Omittable, Always;
    if k != "metadata" {
      var minLength := if k == "resource_type" || k == "resource_id" then Some(1) else None;
      StringField(minLength, f[k].s);
      NonEmptyText(f[k].s);
    }
  }

  // An event passes its envelope schema exactly when it is acceptable.
  lemma EnvelopeIff(requiredMetadata: seq<string>, metadataProps: map<string, Option<SchemaNode>>, d: EventData)
    ensures Conforms(DataSchema(requiredMetadata, metadataProps), DataJson(d))
       <==> Acceptable(requiredMetadata, metadataProps, d)
  {
    var n, f := DataSchema(requiredMetadata, metadataProps), DataJson(d).fields;
    var m := OfType("object").(required := requiredMetadata, properties := metadataProps);
    EnvelopeParts(requiredMetadata, metadataProps);
    assert Obj(f) == DataJson(d);
    assert Acceptable(requiredMetadata, metadataProps, d)
      <==> d.resourceType != "" && d.resourceId != ""
           && RequiredPresent(requiredMetadata, d.metadata) && PropertiesConform(metadataProps, d.metadata) by {
      hide Conforms;
    }
    hide *;
    if d.metadata == map[] { NoMetadata(requiredMetadata, metadataProps, d); }
    ObjectConforms(n, f);
    ObjectConforms(m, d.metadata);
    EnvelopeRequired(requiredMetadata, d);
    EnvelopePropertiesIff(m, d);
  }

  lemma EnvelopeParts(requiredMetadata: seq<string>, metadataProps: map<string, Option<SchemaNode>>)
    ensures var n := DataSchema(requiredMetadata, metadataProps);
      var m := OfType("object").(required := requiredMetadata, properties := metadataProps);
      && TakesObjects(n) && n.properties == EnvelopeProperties(m)
      && n.required == DataSchema(requiredMetadata, map[]).required
      && TakesObjects(m) && m.required == requiredMetadata && m.properties == metadataProps
  {
  }

  lemma NoMetadata(requiredMetadata: seq<string>, metadataProps: map<string, Option<SchemaNode>>, d: EventData)
    requires d.metadata == map[]
    ensures RequiredPresent(requiredMetadata, d.metadata) <==> requiredMetadata == []
    ensures PropertiesConform(metadataProps, d.metadata)
  {
    if requiredMetadata != [] { assert requiredMetadata[0] in requiredMetadata; }
  }

  lemma EnvelopeRequired(requiredMetadata: seq<string>, d: EventData)
    ensures RequiredPresent(DataSchema(requiredMetadata, map[]).required, DataJson(d).fields)
       <==> (requiredMetadata == [] || d.metadata != map[])
  {
    DataFields(d);
    hide DataJson;
    var required := DataSchema(requiredMetadata, map[]).required;
    assert requiredMetadata != [] ==> "metadata" in required by {
      if requiredMetadata != [] { assert required[3] == "metadata"; }
    }
  }

  lemma EnvelopePropertiesIff(metadataNode: SchemaNode, d: EventData)
    ensures PropertiesConform(EnvelopeProperties(metadataNode), DataJson(d).fields)
       <==> && d.resourceType != "" && d.resourceId != ""
            && (d.metadata != map[] ==> Conforms(metadataNode, Obj(d.metadata)))
  {
    var ps, f := EnvelopeProperties(metadataNode), DataJson(d).fields;
    EnvelopeKeys(metadataNode, d);
    hide Conforms, DataJson, EnvelopeProperties;
    forall k | k in ps && k in f ensures Conforms(ps[k].value, f[k]) <==> PropertyHolds(metadataNode, d, k) {
      EnvelopeProperty(metadataNode, d, k);
    }
    if d.metadata != map[] { assert "metadata" in f && "metadata" in ps; }
  }

  lemma EnvelopeKeys(metadataNode: SchemaNode, d: EventData)
    ensures var ps, f := EnvelopeProperties(metadataNode), DataJson(d).fields;
      && "resource_type" in ps && "resource_id" in ps && "metadata" in ps && (forall k :: k in ps ==> ps[k].Some?)
      && "resource_type" in f && "resource_id" in f && ("metadata" in f <==> d.metadata != map[])
      && f["resource_type"] != Null && f["resource_id"] != Null && ("metadata" in f ==> f["metadata"] != Null)
  {
    DataFields(d);
    hide DataJson;
  }

  // ---- Both sides of the wire --------------------------------------------------------------------

  // The parsed schemas of the registered event types.
  type Schemas = map<string, SchemaNode>

  // The publisher checks the event as it was handed in.
  predicate PublisherAccepts(schemas: Schemas, eventType: string, d: EventData) {
    eventType in schemas && Conforms(schemas[eventType], DataJson(d))
  }

  // The consumer checks the data it received; a null decodes as an empty object.
  predicate ConsumerAccepts(schemas: Schemas, event: CloudEvent) {
    match event.data
    case Some(Obj(fields)) => event.typ in schemas && Conforms(schemas[event.typ], Obj(fields))
    case Some(Null) => event.typ in schemas && Conforms(schemas[event.typ], Obj(map[]))
    case _ => false
  }

  ghost predicate HasEnvelopeSchema(schemas: Schemas, eventType: string) {
    eventType in schemas
    && exists requiredMetadata, metadataProps :: schemas[eventType] == DataSchema(requiredMetadata, metadataProps)
  }

  // The consumer sees the stamped data.
  lemma ConsumerSees(schemas: Schemas, eventType: string, d: EventData, now: string)
    ensures ConsumerAccepts(schemas, NewCloudEvent(eventType, d, now))
       <==> eventType in schemas && Conforms(schemas[eventType], DataJson(Stamped(d, now)))
  {
    hide Conforms, Stamped;
  }

  // Under an envelope schema both sides agree on every event, stamped or not.
  lemma BothSidesAgree(schemas: Schemas, eventType: string, d: EventData, now: string)
    requires HasEnvelopeSchema(schemas, eventType)
    ensures PublisherAccepts(schemas, eventType, d) <==> ConsumerAccepts(schemas, NewCloudEvent(eventType, d, now))
  {
    hide Conforms, DataJson, DataSchema, NewCloudEvent, ConsumerAccepts;
    var required, props :| schemas[eventType] == DataSchema(required, props);
    ConsumerSees(schemas, eventType, d, now);
    EnvelopeIff(required, props, d);
    EnvelopeIff(required, props, Stamped(d, now));
    StampKeepsAcceptance(required, props, d, now);
    hide Acceptable, Stamped;
  }

  lemma StampKeepsAcceptance(
      requiredMetadata: seq<string>, metadataProps: map<string, Option<SchemaNode>>, d: EventData, now: string)
    ensures Acceptable(requiredMetadata, metadataProps, d)
           <==> Acceptable(requiredMetadata, metadataProps, Stamped(d, now))
  {
    hide Conforms;
  }

  // A schema without its "timestamp" property, and that property alone.
  function WithoutTimestamp(n: SchemaNode): SchemaNode {
    n.(properties := n.properties - {"timestamp"})
  }

  predicate TakesTimestamp(n: SchemaNode, text: string) {
    "timestamp" in n.properties && n.properties["timestamp"].Some? ==>
      Conforms(n.properties["timestamp"].value, Str(text))
  }

  lemma TimestampSplitsOff(n: SchemaNode, d: EventData)
    ensures Conforms(n, DataJson(d))
       <==> Conforms(WithoutTimestamp(n), DataJson(d)) && TakesTimestamp(n, TimestampText(d.timestamp))
  {
    DataFields(d);
    var f := DataJson(d).fields;
    hide DataJson, Conforms, TimestampText;
    ObjectConforms(n, f);
    ObjectConforms(WithoutTimestamp(n), f);
    OnePropertyApart(n.properties, f, "timestamp");
    hide PropertiesConform;
  }

  lemma OnePropertyApart(properties: map<string, Option<SchemaNode>>, f: map<string, Json>, k: string)
    requires k in f && f[k] != Null
    ensures PropertiesConform(properties, f)
       <==> PropertiesConform(properties - {k}, f)
            && (k in properties && properties[k].Some? ==> Conforms(properties[k].value, f[k]))
  {
    hide Conforms;
  }

  lemma RestIgnoresTimestamp(n: SchemaNode, d: EventData, t: Timestamp)
    ensures Conforms(WithoutTimestamp(n), DataJson(d)) <==> Conforms(WithoutTimestamp(n), DataJson(d.(timestamp := t)))
  {
    var m, f, g := WithoutTimestamp(n), DataJson(d).fields, DataJson(d.(timestamp := t)).fields;
    DataFields(d);
    DataFields(d.(timestamp := t));
    SameBesideTimestamp(d, t);
    assert Obj(f) == DataJson(d) && Obj(g) == DataJson(d.(timestamp := t));
    assert "timestamp" !in m.properties;
    hide *;
    ObjectConforms(m, f);
    ObjectConforms(m, g);
    OtherMembersDecide(m, f, g, "timestamp");
  }

  lemma OtherMembersDecide(n: SchemaNode, f: map<string, Json>, g: map<string, Json>, k: string)
    requires k !in n.properties && f.Keys == g.Keys && forall x :: x in f && x != k ==> f[x] == g[x]
    requires k in f && f[k] != Null && g[k] != Null
    ensures RequiredPresent(n.required, f) <==> RequiredPresent(n.required, g)
    ensures PropertiesConform(n.properties, f) <==> PropertiesConform(n.properties, g)
  {
    hide Conforms;
  }

  lemma SameBesideTimestamp(d: EventData, t: Timestamp)
    ensures var f, g := DataJson(d).fields, DataJson(d.(timestamp := t)).fields;
      f.Keys == g.Keys && forall k :: k in f && k != "timestamp" ==> f[k] == g[k]
  {
    hide OrOmit;
  }

  // Under any schema and for any event the two sides agree exactly when the event carries its own
  // timestamp, or something else in it is refused anyway, or the schema takes the zero time and
  // the current one alike.
  lemma BothSidesAgreeIff(schemas: Schemas, eventType: string, d: EventData, now: string)
    ensures (PublisherAccepts(schemas, eventType, d) <==> ConsumerAccepts(schemas, NewCloudEvent(eventType, d, now)))
       <==> (|| eventType !in schemas || !d.timestamp.ZeroTime?
             || !Conforms(WithoutTimestamp(schemas[eventType]), DataJson(d))
             || (TakesTimestamp(schemas[eventType], ZERO_TIME) <==> TakesTimestamp(schemas[eventType], now)))
  {
    ConsumerSees(schemas, eventType, d, now);
    assert d.timestamp.ZeroTime? ==>
      TimestampText(d.timestamp) == ZERO_TIME && TimestampText(Stamped(d, now).timestamp) == now;
    assert Stamped(d, now) == if d.timestamp.ZeroTime? then d.(timestamp := At(now)) else d;
    hide Conforms, DataJson, NewCloudEvent, ConsumerAccepts, TimestampText, Stamped, WithoutTimestamp, TakesTimestamp;
    if eventType in schemas {
      TimestampSplitsOff(schemas[eventType], d);
      TimestampSplitsOff(schemas[eventType], Stamped(d, now));
      RestIgnoresTimestamp(schemas[eventType], d, At(now));
    }
  }

  // Under a schema that looks at the timestamp, an accepted event can be refused on arrival.
  lemma TimestampSchemasCanDisagree(eventType: string, now: string)
    requires ByteLen(now) > 20
    ensures var schemas := map[eventType := OfType("object").(
        properties := map["timestamp" := Some(OfType("string").(maxLength := Some(20)))])];
      var d := EventData("", "", "r", "1", "", "", map[], ZeroTime);
      PublisherAccepts(schemas, eventType, d) && !ConsumerAccepts(schemas, NewCloudEvent(eventType, d, now))
  {
    var node := OfType("string").(maxLength := Some(20));
    var root := OfType("object").(properties := map["timestamp" := Some(node)]);
    var d := EventData("", "", "r", "1", "", "", map[], ZeroTime);
    assert TimestampText(d.timestamp) == "0001-01-01T00:00:00Z" && TimestampText(Stamped(d, now).timestamp) == now;
    TwentyBytes();
    StampedField(node, d);
    StampedField(node, Stamped(d, now));
    ConsumerSees(map[eventType := root], eventType, d, now);
    hide Conforms, DataJson, NewCloudEvent, ConsumerAccepts, ByteLen, TimestampText, Stamped;
  }

  lemma TwentyBytes()
    ensures ByteLen("0001-01-01T00:00:00Z") == 20
  {
    AsciiLen("0001-01-01T00:00:00Z");
  }

  lemma {:induction false} AsciiLen(s: string)
    requires forall i :: 0 <= i < |s| ==> s[i] < '\U{0080}'
    ensures ByteLen(s) == |s|
  {
    if s != [] { AsciiLen(s[1..]); }
  }

  lemma StampedField(node: SchemaNode, d: EventData)
    requires node == OfType("string").(maxLength := Some(20))
    ensures Conforms(OfType("object").(properties := map["timestamp" := Some(node)]), DataJson(d))
       <==> ByteLen(TimestampText(d.timestamp)) <= 20
  {
    var root, text := OfType("object").(properties := map["timestamp" := Some(node)]), TimestampText(d.timestamp);
    TimestampOnly(node, text);
    hide *;
    TimestampSplitsOff(root, d);
    AnyObject(d);
  }

  lemma TimestampOnly(node: SchemaNode, text: string)
    requires node == OfType("string").(maxLength := Some(20))
    ensures var root := OfType("object").(properties := map["timestamp" := Some(node)]);
      WithoutTimestamp(root) == OfType("object") && (TakesTimestamp(root, text) <==> ByteLen(text) <= 20)
  {
    hide ByteLen;
    var root := OfType("object").(properties := map["timestamp" := Some(node)]);
    assert root.properties - {"timestamp"} == map[];
  }

  lemma AnyObject(d: EventData)
    ensures Conforms(OfType("object"), DataJson(d))
  {
    hide DataJson;
  }

  // ---- The publisher -------------------------------------------------------------------------------

  datatype PublishError = BadEventType | PayloadRejected | WriteFailed

  datatype Event = Event(typ: string, data: EventData, now: string)

  datatype Outgoing = Outgoing(topic: string, message: Message)

  function Refuse(schemas: Schemas, validationOff: bool, e: Event): Option<PublishError> {
    if !ValidEventType(e.typ) then Some(BadEventType)
    else if !validationOff && !PublisherAccepts(schemas, e.typ, e.data) then Some(PayloadRejected)
    else None
  }

  // The refusal of the first event that is refused.
  function FirstRefusal(schemas: Schemas, validationOff: bool, events: seq<Event>): (r: Option<PublishError>)
    ensures r.None? <==> forall i :: 0 <= i < |events| ==> Refuse(schemas, validationOff, events[i]).None?
    ensures r.Some? ==> exists i :: 0 <= i < |events| && Refuse(schemas, validationOff, events[i]) == r
  {
    if events == [] then None
    else
      var first, rest := Refuse(schemas, validationOff, events[0]), FirstRefusal(schemas, validationOff, events[1..]);
      assert forall i :: 1 <= i < |events| ==> events[i] == events[1..][i - 1];
      if first.Some? then first else rest
  }

  function MessageFor(prefix: string, e: Event): Outgoing {
    Outgoing(TopicFromEventType(prefix, e.typ), Message(e.data.resourceId, Some(NewCloudEvent(e.typ, e.data, e.now))))
  }

  // The data object of an event with this timestamp, member by member.
  ghost predicate OnWire(d: EventData, timestamp: string, f: map<string, Json>) {
    && (forall k :: k in f ==>
          k in {"actor_id", "actor_type", "resource_type", "resource_id",
                "organization_id", "team_id", "metadata", "timestamp"})
    && "actor_id" in f && f["actor_id"] == Str(d.actorId)
    && "resource_type" in f && f["resource_type"] == Str(d.resourceType)
    && "resource_id" in f && f["resource_id"] == Str(d.resourceId)
    && "timestamp" in f && f["timestamp"] == Str(timestamp)
    && (if d.actorType == "" then "actor_type" !in f else "actor_type" in f && f["actor_type"] == Str(d.actorType))
    && (if d.organizationId == "" then "organization_id" !in f
        else "organization_id" in f && f["organization_id"] == Str(d.organizationId))
    && (if d.teamId == "" then "team_id" !in f else "team_id" in f && f["team_id"] == Str(d.teamId))
    && (if d.metadata == map[] then "metadata" !in f else "metadata" in f && f["metadata"] == Obj(d.metadata))
  }

  // As it is checked: the zero time is the first instant of year one.
  lemma DataIsOnWire(d: EventData)
    ensures OnWire(d, if d.timestamp.ZeroTime? then "0001-01-01T00:00:00Z" else d.timestamp.text, DataJson(d).fields)
  {
    OmittedMembers(d);
    AlwaysMembers(d);
    hide Omittable, Always;
  }

  lemma AlwaysMembers(d: EventData)
    ensures var f := Always(d);
      && f.Keys == {"actor_id", "resource_type", "resource_id", "timestamp"}
      && f["actor_id"] == Str(d.actorId) && f["resource_type"] == Str(d.resourceType)
      && f["resource_id"] == Str(d.resourceId)
      && f["timestamp"] == Str(if d.timestamp.ZeroTime? then "0001-01-01T00:00:00Z" else d.timestamp.text)
  {
  }

  // A message carries an event: on the topic of its type, under its resource id, with its type and
  // data, stamped with the current time if it had none.
  ghost predicate Carries(m: Outgoing, prefix: string, e: Event) {
    && IsTopicOf(m.topic, prefix, e.typ) && m.message.key == e.data.resourceId
    && m.message.event.Some? && m.message.event.value.typ == e.typ
    && m.message.event.value.data.Some? && m.message.event.value.data.value.Obj?
    && OnWire(e.data, if e.data.timestamp.ZeroTime? then e.now else e.data.timestamp.text,
              m.message.event.value.data.value.fields)
  }

  lemma MessageCarries(prefix: string, e: Event)
    requires ValidEventType(e.typ)
    ensures Carries(MessageFor(prefix, e), prefix, e)
  {
    TopicIsSpelledOut(prefix, e.typ);
    DataIsOnWire(Stamped(e.data, e.now));
    hide DataJson, ValidEventType, TopicFromEventType, IsTopicOf;
  }

  function MessagesFor(prefix: string, events: seq<Event>): seq<Outgoing> {
    seq(|events|, i requires 0 <= i < |events| => MessageFor(prefix, events[i]))
  }

  lemma OneMore(prefix: string, events: seq<Event>, i: nat)
    requires i < |events|
    ensures MessagesFor(prefix, events[..i + 1]) == MessagesFor(prefix, events[..i]) + [MessageFor(prefix, events[i])]
  {
    hide MessageFor;
  }

  lemma BatchCarries(prefix: string, schemas: Schemas, validationOff: bool, events: seq<Event>)
    requires FirstRefusal(schemas, validationOff, events).None?
    ensures |MessagesFor(prefix, events)| == |events|
    ensures forall i :: 0 <= i < |events| ==> Carries(MessagesFor(prefix, events)[i], prefix, events[i])
  {
    hide Carries, ValidEventType, PublisherAccepts, FirstRefusal, MessageFor;
    forall i | 0 <= i < |events| ensures Carries(MessagesFor(prefix, events)[i], prefix, events[i]) {
      assert Refuse(schemas, validationOff, events[i]).None?;
      MessageCarries(prefix, events[i]);
    }
  }

  class KafkaPublisher {
    const topicPrefix: string
    const validationOff: bool
    var written: seq<Outgoing>

    constructor (topicPrefix: string, validationOff: bool)
      ensures this.topicPrefix == if topicPrefix == "" then "sentiae" else topicPrefix
      ensures this.validationOff == validationOff && written == []
    {
      this.topicPrefix := if topicPrefix == "" then "sentiae" else topicPrefix;
      this.validationOff := validationOff;
      written := [];
    }

    // `writeOk`: does the broker take the write?
    method Publish(schemas: Schemas, e: Event, writeOk: bool) returns (result: Result<(), PublishError>)
      modifies this
      ensures result == (
        if !ValidEventType(e.typ) then Err(BadEventType)
        else if !validationOff && !(e.typ in schemas && Conforms(schemas[e.typ], DataJson(e.data)))
        then Err(PayloadRejected)
        else if !writeOk then Err(WriteFailed)
        else Ok(()))
      ensures if result.Ok? then |written| == |old(written)| + 1 && old(written) <= written
          && Carries(written[|old(written)|], topicPrefix, e)
        else written == old(written)
      ensures match Refuse(schemas, validationOff, e)
        case Some(error) => result == Err(error) && written == old(written)
        case None => if writeOk then result == Ok(()) && written == old(written) + [MessageFor(topicPrefix, e)]
                     else result == Err(WriteFailed) && written == old(written)
    {
      if !ValidEventType(e.typ) { return Err(BadEventType); }
      if !validationOff {
        if !PublisherAccepts(schemas, e.typ, e.data) { return Err(PayloadRejected); }
      }
      var event := NewCloudEvent(e.typ, e.data, e.now);
      var topic := TopicFromEventType(topicPrefix, e.typ);
      if !writeOk { return Err(WriteFailed); }
      written := written + [Outgoing(topic, Message(e.data.resourceId, Some(event)))];
      MessageCarries(topicPrefix, e);
      hide Carries, Conforms, ValidEventType, DataJson, Stamped;
      return Ok(());
    }

    // All of the events or none: the first event that is refused stops the batch before
    // anything is written.
    method PublishBatch(schemas: Schemas, events: seq<Event>, writeOk: bool) returns (result: Result<(), PublishError>)
      modifies this
      ensures result == (if events == [] then Ok(())
        else match FirstRefusal(schemas, validationOff, events)
          case Some(error) => Err(error)
          case None => if writeOk then Ok(()) else Err(WriteFailed))
      ensures written == if result.Ok? then old(written) + MessagesFor(topicPrefix, events) else old(written)
      ensures result.Ok? ==>
        && |written| == |old(written)| + |events|
        && forall i :: 0 <= i < |events| ==> Carries(written[|old(written)| + i], topicPrefix, events[i])
    {
      hide ValidEventType, PublisherAccepts, NewCloudEvent, TopicFromEventType;
      if |events| == 0 { return Ok(()); }
      var messages: seq<Outgoing> := [];
      var i := 0;
      while i < |events|
        invariant 0 <= i <= |events| && messages == MessagesFor(topicPrefix, events[..i])
        invariant written == old(written)
        invariant FirstRefusal(schemas, validationOff, events) == FirstRefusal(schemas, validationOff, events[i..])
      {
        var e := events[i];
        assert events[i..][0] == e && events[i..][1..] == events[i + 1..];
        if !ValidEventType(e.typ) { return Err(BadEventType); }
        if !validationOff {
          if !PublisherAccepts(schemas, e.typ, e.data) { return Err(PayloadRejected); }
        }
        var event := NewCloudEvent(e.typ, e.data, e.now);
        var topic := TopicFromEventType(topicPrefix, e.typ);
        OneMore(topicPrefix, events, i);
        messages := messages + [Outgoing(topic, Message(e.data.resourceId, Some(event)))];
        i := i + 1;
      }
      assert events[..i] == events;
      if !writeOk { return Err(WriteFailed); }
      BatchCarries(topicPrefix, schemas, validationOff, events);
      written := written + messages;
      return Ok(());
    }
  }

  // What the wire carries for an accepted event: a non-empty resource and every required
  // metadata key, non-null; and the consumer takes it.
  lemma AcceptedEventsArriveComplete(
      schemas: Schemas, e: Event, requiredMetadata: seq<string>, metadataProps: map<string, Option<SchemaNode>>)
    requires e.typ in schemas && schemas[e.typ] == DataSchema(requiredMetadata, metadataProps)
    requires Refuse(schemas, false, e) == None
    ensures var event := NewCloudEvent(e.typ, e.data, e.now);
      && ConsumerAccepts(schemas, event)
      && var f := event.data.value.fields;
         && "resource_type" in f && f["resource_type"].Str? && f["resource_type"].s != ""
         && "resource_id" in f && f["resource_id"].Str? && f["resource_id"].s != ""
         && forall r :: r in requiredMetadata ==>
              "metadata" in f && f["metadata"].Obj? && r in f["metadata"].fields && f["metadata"].fields[r] != Null
  {
    assert HasEnvelopeSchema(schemas, e.typ);
    BothSidesAgree(schemas, e.typ, e.data, e.now);
    EnvelopeIff(requiredMetadata, metadataProps, e.data);
    DataFields(Stamped(e.data, e.now));
    hide DataJson, Conforms, DataSchema;
  }
}
