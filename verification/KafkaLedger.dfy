// Recording through Kafka: the recorder that publishes snapshots, the consumer that writes them to
// the ledger (timetravel/kafka_recorder.go).
module KafkaLedger {
  import opened Json
  import opened Events
  import opened Publisher
  import opened Ledger
  import opened Wrappers

  const EVENT_TYPE: string := "sentiae.timetravel.entity.changed"

  // ---- UUIDs as text ------------------------------------------------------------------------

  function HexDigits(u: seq<nat>): string
    requires forall i :: 0 <= i < |u| ==> u[i] < 16
  {
    seq(|u|, i requires 0 <= i < |u| => Hex(u[i]))
  }

  function UuidText(u: Uuid): string {
    var h := HexDigits(u);
    h[..8] + "-" + h[8..12] + "-" + h[12..16] + "-" + h[16..20] + "-" + h[20..]
  }

  predicate IsHex(c: char) { '0' <= c <= '9' || 'a' <= c <= 'f' || 'A' <= c <= 'F' }

  function HexValue(c: char): (v: nat)
    requires IsHex(c)
    ensures v < 16
  {
    if '0' <= c <= '9' then c as int - 48 else if 'a' <= c <= 'f' then c as int - 87 else c as int - 55
  }

  // The forms that uuid.Parse takes: with hyphens, bare or inside one further character on each
  // side (which need not be braces) or after "urn:uuid:", and without hyphens.
  function ParseUuid(s: string): Option<Uuid> {
    if |s| == 32 then FromHex(s)
    else if |s| == 36 then ParseDashed(s)
    else if |s| == 38 then ParseDashed(s[1..37])
    else if |s| == 45 && IsUrnPrefix(s[..9]) then ParseDashed(s[9..])
    else None
  }

  function ParseDashed(s: string): Option<Uuid>
    requires |s| == 36
  {
    if s[8] != '-' || s[13] != '-' || s[18] != '-' || s[23] != '-' then None
    else FromHex(s[..8] + s[9..13] + s[14..18] + s[19..23] + s[24..])
  }

  function LowerCase(c: char): char { if 'A' <= c <= 'Z' then c + 32 as char else c }

  predicate IsUrnPrefix(s: string)
    requires |s| == 9
  {
    forall i | 0 <= i < 9 :: LowerCase(s[i]) == "urn:uuid:"[i]
  }

  function FromHex(h: string): Option<Uuid>
    requires |h| == 32
  {
    if forall i | 0 <= i < 32 :: IsHex(h[i])
    then Some(seq(32, i requires 0 <= i < 32 && IsHex(h[i]) => HexValue(h[i])))
    else None
  }

  lemma DashedSlices(a: string, b: string, c: string, d: string, e: string)
    requires |a| == 8 && |b| == 4 && |c| == 4 && |d| == 4 && |e| == 12
    ensures var s := a + "-" + b + "-" + c + "-" + d + "-" + e;
      && |s| == 36 && s[8] == s[13] == s[18] == s[23] == '-'
      && s[..8] == a && s[9..13] == b && s[14..18] == c && s[19..23] == d && s[24..] == e
  {
  }

  lemma DashedRoundTrip(u: Uuid)
    ensures |UuidText(u)| == 36 && ParseDashed(UuidText(u)) == Some(u)
  {
    var h, s := HexDigits(u), UuidText(u);
    DashedSlices(h[..8], h[8..12], h[12..16], h[16..20], h[20..]);
    assert s[..8] + s[9..13] + s[14..18] + s[19..23] + s[24..] == h by {
      assert h[..8] + h[8..12] + h[12..16] + h[16..20] + h[20..] == h;
    }
    assert FromHex(h) == Some(u) by { FromHexDigits(u); }
  }

  // The printed form of an id parses back to it, and so do its other forms.
  lemma UuidRoundTrip(u: Uuid)
    ensures ParseUuid(UuidText(u)) == Some(u) && ParseUuid(HexDigits(u)) == Some(u)
    ensures ParseUuid("{" + UuidText(u) + "}") == Some(u) && ParseUuid("urn:uuid:" + UuidText(u)) == Some(u)
  {
    DashedRoundTrip(u);
    FromHexDigits(u);
    var t := UuidText(u);
    assert ("{" + t + "}")[1..37] == t;
    assert ("urn:uuid:" + t)[..9] == "urn:uuid:" && ("urn:uuid:" + t)[9..] == t;
    hide UuidText, ParseDashed, FromHex, HexDigits;
  }

  lemma FromHexDigits(u: Uuid)
    ensures FromHex(HexDigits(u)) == Some(u)
  {
    var h := HexDigits(u);
    forall i | 0 <= i < 32 ensures IsHex(h[i]) && HexValue(h[i]) == u[i] {
      assert h[i] == Hex(u[i]);
    }
    assert FromHex(h).value == u;
  }

  // A hexadecimal digit and its value.
  ghost predicate Denotes(c: char, v: nat) {
    v < 16 && (c == "0123456789abcdef"[v] || c == "0123456789ABCDEF"[v])
  }

  ghost predicate Spells(s: string, u: Uuid) { |s| == 32 && forall i :: 0 <= i < 32 ==> Denotes(s[i], u[i]) }

  ghost predicate SpellsDashed(s: string, u: Uuid) {
    && |s| == 36 && s[8] == s[13] == s[18] == s[23] == '-'
    && Spells(s[..8] + s[9..13] + s[14..18] + s[19..23] + s[24..], u)
  }

  lemma HexDenotes(c: char)
    ensures IsHex(c) <==> exists v: nat :: Denotes(c, v)
    ensures IsHex(c) ==> Denotes(c, HexValue(c)) && forall v: nat :: Denotes(c, v) ==> v == HexValue(c)
  {
    HexValueDenotes(c);
    forall v: nat | Denotes(c, v) ensures IsHex(c) && v == HexValue(c) { DenotedIsHex(c, v); }
    hide IsHex, Denotes;
  }

  lemma HexValueDenotes(c: char)
    ensures IsHex(c) ==> Denotes(c, HexValue(c))
  {
  }

  lemma DenotedIsHex(c: char, v: nat)
    requires Denotes(c, v)
    ensures IsHex(c) && v == HexValue(c)
  {
  }

  lemma FromHexIff(h: string, u: Uuid)
    requires |h| == 32
    ensures FromHex(h) == Some(u) <==> Spells(h, u)
  {
    forall i | 0 <= i < 32
      ensures Denotes(h[i], u[i]) <==> IsHex(h[i]) && HexValue(h[i]) == u[i]
    {
      HexDenotes(h[i]);
    }
    hide Denotes, IsHex;
    if Spells(h, u) {
      assert forall i | 0 <= i < 32 :: IsHex(h[i]);
      assert FromHex(h).value == u;
    }
  }

  lemma ParseDashedIff(s: string, u: Uuid)
    requires |s| == 36
    ensures ParseDashed(s) == Some(u) <==> SpellsDashed(s, u)
  {
    FromHexIff(s[..8] + s[9..13] + s[14..18] + s[19..23] + s[24..], u);
    hide FromHex, Spells;
  }

  // A text parses to an id exactly when it spells its digits, in either case, in one of the forms.
  lemma ParseUuidIff(s: string, u: Uuid)
    ensures ParseUuid(s) == Some(u) <==>
      || Spells(s, u) || SpellsDashed(s, u)
      || (|s| == 38 && SpellsDashed(s[1..37], u))
      || (|s| == 45 && (forall i :: 0 <= i < 9 ==> s[i] == "urn:uuid:"[i] || s[i] == "URN:UUID:"[i])
          && SpellsDashed(s[9..], u))
  {
    if |s| == 32 { FromHexIff(s, u); }
    if |s| == 36 { ParseDashedIff(s, u); }
    if |s| == 38 { ParseDashedIff(s[1..37], u); }
    if |s| == 45 {
      ParseDashedIff(s[9..], u);
      UrnPrefixIff(s[..9]);
    }
    assert Spells(s, u) ==> |s| == 32;
    assert SpellsDashed(s, u) ==> |s| == 36;
    hide FromHex, ParseDashed, Spells, SpellsDashed, IsUrnPrefix;
  }

  lemma UrnPrefixIff(s: string)
    requires |s| == 9
    ensures IsUrnPrefix(s) <==> forall i :: 0 <= i < 9 ==> s[i] == "urn:uuid:"[i] || s[i] == "URN:UUID:"[i]
  {
  }

  // The printed form: the digits in lower case, with hyphens.
  lemma UuidTextIs(u: Uuid)
    ensures SpellsDashed(UuidText(u), u)
    ensures forall c :: c in UuidText(u) ==> c == '-' || c in "0123456789abcdef"
  {
    DashedRoundTrip(u);
    ParseDashedIff(UuidText(u), u);
    var h := HexDigits(u);
    assert forall c :: c in UuidText(u) ==> c == '-' || c in h;
    forall c | c in h ensures c in "0123456789abcdef" {
      var i :| 0 <= i < |h| && h[i] == c;
      HexIsLower(u[i]);
    }
    hide UuidText, ParseDashed, SpellsDashed, HexDigits;
  }

  lemma HexIsLower(d: nat)
    requires d < 16
    ensures Hex(d) == "0123456789abcdef"[d] && Hex(d) in "0123456789abcdef"
  {
  }

  // ---- Publishing a snapshot ------------------------------------------------------------------

  // The event that KafkaRecorder.RecordEntity publishes; `raw` is the marshaled payload.
  function SnapshotEvent(writer: string, ctx: Option<ChangeContext>, kind: string, id: string, raw: string): EventData {
    var cc := ChangeContextFromContext(ctx);
    EventData("", "", "entity_snapshot", kind + ":" + id, "", "",
      map["kind" := Str(kind), "entity_id" := Str(id), "writer_service" := Str(writer),
          "payload" := Str(raw), "changed_by" := Str(UuidText(cc.changedBy)), "change_reason" := Str(cc.reason)],
      ZeroTime)
  }

  // The data of a snapshot event, member by member. Without a change context, or with one that has no
  // reason, the system is the reason.
  ghost predicate IsSnapshot(
      d: EventData, writer: string, ctx: Option<ChangeContext>, kind: string, id: string, raw: string)
  {
    && d.resourceType == "entity_snapshot" && d.resourceId == kind + ":" + id
    && d.actorId == d.actorType == d.organizationId == d.teamId == "" && d.timestamp.ZeroTime?
    && d.metadata.Keys == {"kind", "entity_id", "writer_service", "payload", "changed_by", "change_reason"}
    && d.metadata["kind"] == Str(kind) && d.metadata["entity_id"] == Str(id)
    && d.metadata["writer_service"] == Str(writer) && d.metadata["payload"] == Str(raw)
    && d.metadata["changed_by"] == Str(UuidText(if ctx.None? then seq(32, _ => 0) else ctx.value.changedBy))
    && d.metadata["change_reason"]
       == Str(if ctx.None? || ctx.value.reason == "" then "system" else ctx.value.reason)
  }

  lemma SnapshotEventIs(writer: string, ctx: Option<ChangeContext>, kind: string, id: string, raw: string)
    ensures IsSnapshot(SnapshotEvent(writer, ctx, kind, id, raw), writer, ctx, kind, id, raw)
  {
    hide UuidText;
  }

  datatype RecorderError = NoPublisher | PayloadNotMarshaled | NotPublished(error: PublishError)

  class KafkaRecorder {
    const pub: KafkaPublisher?
    const writerService: string

    constructor (pub: KafkaPublisher?, writerService: string)
      ensures this.pub == pub
      ensures this.writerService == if writerService == "" then "unknown-service" else writerService
    {
      this.pub := pub;
      this.writerService := if writerService == "" then "unknown-service" else writerService;
    }

    method RecordEntity(schemas: Schemas, ctx: Option<ChangeContext>, kind: string, id: string,
                        data: Option<string>, now: string, writeOk: bool)
      returns (result: Result<(), RecorderError>)
      modifies pub
      ensures pub == null ==> result == Err(NoPublisher)
      ensures pub != null && data.None? ==> result == Err(PayloadNotMarshaled) && pub.written == old(pub.written)
      ensures result.Ok? ==>
        var d := SnapshotEvent(writerService, ctx, kind, id, data.value);
        var e := Event("sentiae.timetravel.entity.changed", d, now);
        && IsSnapshot(e.data, writerService, ctx, kind, id, data.value)
        && |pub.written| == |old(pub.written)| + 1 && Carries(pub.written[|old(pub.written)|], pub.topicPrefix, e)
      ensures pub != null && data.Some? ==>
        var e := Event(EVENT_TYPE, SnapshotEvent(writerService, ctx, kind, id, data.value), now);
        if writeOk && Refuse(schemas, pub.validationOff, e).None?
        then result == Ok(()) && pub.written == old(pub.written) + [MessageFor(pub.topicPrefix, e)]
        else result.Err? && pub.written == old(pub.written)
    {
      if pub == null { return Err(NoPublisher); }
      if data.None? { return Err(PayloadNotMarshaled); }
      SnapshotEventIs(writerService, ctx, kind, id, data.value);
      var cc := ChangeContextFromContext(ctx);
      var meta := map["kind" := Str(kind), "entity_id" := Str(id), "writer_service" := Str(writerService),
                      "payload" := Str(data.value), "changed_by" := Str(UuidText(cc.changedBy)),
                      "change_reason" := Str(cc.reason)];
      var d := EventData("", "", "entity_snapshot", kind + ":" + id, "", "", meta, ZeroTime);
      var published := pub.Publish(schemas, Event(EVENT_TYPE, d, now), writeOk);
      if published.Err? { return Err(NotPublished(published.error)); }
      hide IsSnapshot, Carries;
      return Ok(());
    }
  }

  // ---- Consuming a snapshot ----------------------------------------------------------------------

  // What the consumer hands to its sink.
  datatype Capture = Capture(entity: Entity, payload: string, cc: ChangeContext)

  // The metadata object of the event's data: empty when data or metadata is null or absent, None
  // when they have another type.
  function MetadataOf(event: CloudEvent): Option<map<string, Json>> {
    match event.data
    case Some(Null) => Some(map[])
    case Some(Obj(fields)) =>
      if "metadata" !in fields || fields["metadata"] == Null then Some(map[])
      else if fields["metadata"].Obj? then Some(fields["metadata"].fields)
      else None
    case _ => None
  }

  // A string member, or "" when it is absent or something else.
  function StringAt(meta: map<string, Json>, key: string): string {
    if key in meta && meta[key].Str? then meta[key].s else ""
  }

  // Marshaling the payload text in the sink: the text that is stored, or None when it is not JSON.
  type Compactor = string -> Option<string>

  function Handle(event: CloudEvent): Option<Capture> {
    match MetadataOf(event)
    case None => None
    case Some(meta) =>
      var kind, id := StringAt(meta, "kind"), StringAt(meta, "entity_id");
      if kind == "" || id == "" then None
      else
        var reason := if StringAt(meta, "change_reason") != "" then StringAt(meta, "change_reason") else "system";
        var author := ParseUuid(StringAt(meta, "changed_by"));
        Some(Capture(Entity(kind, id), StringAt(meta, "payload"),
          ChangeContext(if author.Some? then author.value else NilUuid(), reason)))
  }

  // A text member that is not empty.
  ghost predicate HasText(meta: map<string, Json>, key: string) {
    key in meta && meta[key].Str? && meta[key].s != ""
  }

  // What the consumer takes from an event, member by member: nothing without metadata that names a
  // kind and an id; the system and the nil id stand for a reason and an author that are not there.
  lemma HandleReads(event: CloudEvent)
    ensures Handle(event).Some? <==>
      && event.data.Some? && event.data.value.Obj?
      && var f := event.data.value.fields;
         "metadata" in f && f["metadata"].Obj?
         && HasText(f["metadata"].fields, "kind") && HasText(f["metadata"].fields, "entity_id")
    ensures Handle(event).Some? ==>
      var c, meta := Handle(event).value, event.data.value.fields["metadata"].fields;
      && c.entity == Entity(meta["kind"].s, meta["entity_id"].s)
      && c.payload == (if HasText(meta, "payload") then meta["payload"].s else "")
      && c.cc.reason == (if HasText(meta, "change_reason") then meta["change_reason"].s else "system")
      && if HasText(meta, "changed_by") && ParseUuid(meta["changed_by"].s).Some?
         then Some(c.cc.changedBy) == ParseUuid(meta["changed_by"].s)
         else c.cc.changedBy == seq(32, _ => 0)
  {
    assert ParseUuid("") == None;
    hide ParseUuid;
  }

  // The consumer of the events, in front of a ledger. It never reports an error: what it cannot
  // decode or its sink refuses is dropped.
  class SnapshotConsumer {
    const sink: GORMRecorder?

    constructor (sink: GORMRecorder?)
      ensures this.sink == sink
    {
      this.sink := sink;
    }

    // `compact` marshals the payload text for the sink.
    method HandleEvent(event: CloudEvent, compact: Compactor, now: int, closeOk: bool, insertOk: bool)
      modifies sink
      ensures sink != null ==> sink.rows == (match Handle(event)
        case Some(c) =>
          if sink.connected && compact(c.payload).Some?
          then Ledger.Run(old(sink.rows), StepsOf(c.entity, sink.writerService,
                 Call(compact(c.payload).value, now, c.cc, closeOk, insertOk)))
          else old(sink.rows)
        case None => old(sink.rows))
    {
      if sink == null { return; }
      var metadata := MetadataOf(event);
      if metadata.None? { return; }
      var kind, id := StringAt(metadata.value, "kind"), StringAt(metadata.value, "entity_id");
      var payload := StringAt(metadata.value, "payload");
      if kind == "" || id == "" { return; }
      var cc := ChangeContext(NilUuid(), "system");
      var rawReason := StringAt(metadata.value, "change_reason");
      if rawReason != "" {
        cc := cc.(reason := rawReason);
      }
      var rawBy := StringAt(metadata.value, "changed_by");
      if rawBy != "" {
        var parsed := ParseUuid(rawBy);
        if parsed.Some? {
          cc := cc.(changedBy := parsed.value);
        }
      }
      var _ := sink.RecordEntity(Some(cc), kind, id, compact(payload), now, closeOk, insertOk);
    }
  }

  // Kind, id, payload and change context arrive as they were recorded. (The writer service does
  // not: it is in the event, but nothing reads it.)
  lemma RecordedSnapshotsArriveUnchanged(
      writer: string, ctx: Option<ChangeContext>, kind: string, id: string, raw: string, now: string)
    ensures Handle(NewCloudEvent(EVENT_TYPE, SnapshotEvent(writer, ctx, kind, id, raw), now))
         == if kind == "" || id == "" then None else Some(Capture(Entity(kind, id), raw, ChangeContextFromContext(ctx)))
  {
    var d := SnapshotEvent(writer, ctx, kind, id, raw);
    UuidRoundTrip(ChangeContextFromContext(ctx).changedBy);
    MetadataArrives(EVENT_TYPE, d, now);
    SnapshotTexts(writer, ctx, kind, id, raw);
    hide SnapshotEvent, UuidText, ParseUuid, StringAt, MetadataOf, NewCloudEvent, HexDigits;
  }

  lemma MetadataArrives(eventType: string, d: EventData, now: string)
    ensures MetadataOf(NewCloudEvent(eventType, d, now)) == Some(d.metadata)
  {
    DataFields(Stamped(d, now));
    hide DataJson;
  }

  lemma SnapshotTexts(writer: string, ctx: Option<ChangeContext>, kind: string, id: string, raw: string)
    ensures var meta, cc := SnapshotEvent(writer, ctx, kind, id, raw).metadata, ChangeContextFromContext(ctx);
      && StringAt(meta, "kind") == kind && StringAt(meta, "entity_id") == id && StringAt(meta, "payload") == raw
      && StringAt(meta, "changed_by") == UuidText(cc.changedBy) && StringAt(meta, "change_reason") == cc.reason
  {
    hide UuidText;
  }
}
