// The difference between two points in time of one entity (timetravel/diff.go, DiffSnapshots):
// the reader of the ledger, the decoder and the difference put together.
module SnapshotDiffs {
  import opened Json
  import opened Diff
  import opened Patch
  import opened Ledger
  import opened LedgerLaws
  import opened Wrappers

  datatype SnapshotError =
    | LoaderRequired
    | IdentityRequired
    | FromSnapshot(error: LoadError) | ToSnapshot(error: LoadError)
    | FromPayload | ToPayload

  // Decoding a payload text gives a tree or fails.
  type Decoder = string -> Option<Json>

  ghost predicate IsDecoder(decode: Decoder) {
    forall text :: decode(text).Some? ==> WellFormed(decode(text).value)
  }

  // An empty payload stands for null.
  function PayloadOf(decode: Decoder, text: string): Option<Json> {
    if text == "" then Some(Null) else decode(text)
  }

  // The trees to compare.
  function Payloads(decode: Decoder, kind: string, id: string, from: Result<Row, LoadError>, to: Result<Row, LoadError>)
    : Result<(Json, Json), SnapshotError>
  {
    if kind == "" || id == "" then Err(IdentityRequired)
    else if from.Err? then Err(FromSnapshot(from.error))
    else if to.Err? then Err(ToSnapshot(to.error))
    else
      var a, b := PayloadOf(decode, from.value.payload), PayloadOf(decode, to.value.payload);
      if a.None? then Err(FromPayload) else if b.None? then Err(ToPayload) else Ok((a.value, b.value))
  }

  // `fromOk` and `toOk`: does the database answer the two queries?
  method DiffSnapshots(
      loader: GORMRecorder?, decode: Decoder, kind: string, id: string, from: int, to: int, fromOk: bool, toOk: bool)
    returns (result: Result<seq<FieldDiff>, SnapshotError>)
    requires IsDecoder(decode)
    ensures loader == null ==> result == Err(LoaderRequired)
    ensures loader != null && (kind == "" || id == "") ==> result == Err(IdentityRequired)
    ensures loader != null && kind != "" && id != "" ==>
      var x := loader.LoadSnapshotAt(kind, id, from, fromOk);
      var y := loader.LoadSnapshotAt(kind, id, to, toOk);
      if x.Err? then result == Err(FromSnapshot(x.error))
      else if y.Err? then result == Err(ToSnapshot(y.error))
      else
        var a := if x.value.payload == "" then Some(Null) else decode(x.value.payload);
        var b := if y.value.payload == "" then Some(Null) else decode(y.value.payload);
        if a.None? then result == Err(FromPayload)
        else if b.None? then result == Err(ToPayload)
        else (
          result.Ok? && SortedByPath(result.value)
          && multiset(result.value) == multiset(ValueDiff("", [], a.value, b.value)))
    ensures loader != null ==>
      match Payloads(decode, kind, id,
                     loader.LoadSnapshotAt(kind, id, from, fromOk), loader.LoadSnapshotAt(kind, id, to, toOk))
      case Err(error) => result == Err(error)
      case Ok((a, b)) => (
        result.Ok? && SortedByPath(result.value) &&
        multiset(result.value) == multiset(ValueDiff("", [], a, b)))
  {
    if loader == null { return Err(LoaderRequired); }
    if kind == "" || id == "" { return Err(IdentityRequired); }
    var fromSnap := loader.LoadSnapshotAt(kind, id, from, fromOk);
    if fromSnap.Err? { return Err(FromSnapshot(fromSnap.error)); }
    var toSnap := loader.LoadSnapshotAt(kind, id, to, toOk);
    if toSnap.Err? { return Err(ToSnapshot(toSnap.error)); }
    var fromPayload, toPayload := Null, Null;
    if |fromSnap.value.payload| > 0 {
      var decoded := decode(fromSnap.value.payload);
      if decoded.None? { return Err(FromPayload); }
      fromPayload := decoded.value;
    }
    if |toSnap.value.payload| > 0 {
      var decoded := decode(toSnap.value.payload);
      if decoded.None? { return Err(ToPayload); }
      toPayload := decoded.value;
    }
    var diffs := DiffPayloads(fromPayload, toPayload);
    return Ok(diffs);
  }

  // Call i is the one whose payload is in force at a time: the latest insert by then, not closed since.
  ghost predicate InForce(calls: seq<Call>, at: int, i: nat) {
    LatestInsert(calls, at, i) && !ClosedBy(calls, i + 1, at)
  }

  // Whatever was recorded in between, and whatever closes and inserts failed: the entries reported
  // for two times lead from the state recorded by the first to the state recorded by the second,
  // exactly when nothing became null.
  lemma SnapshotDiffLeadsFromStateToState(
      decode: Decoder, entity: Entity, writer: string, calls: seq<Call>, steps: seq<Step>,
      from: int, to: int, i: nat, j: nat, order: seq<FieldDiff>)
    requires Sequential(calls) && StepsFor(steps, entity) == Flatten(entity, writer, calls)
    requires InForce(calls, from, i) && InForce(calls, to, j) && entity.kind != "" && entity.id != ""
    ensures var (x, y) := (Newest(Run([], steps), entity, from), Newest(Run([], steps), entity, to));
      var (a, b) := (PayloadOf(decode, calls[i].payload), PayloadOf(decode, calls[j].payload));
      && x.Some? && y.Some?
      && (a.Some? && b.Some? ==>
           && Payloads(decode, entity.kind, entity.id, Ok(x.value), Ok(y.value)) == Ok((a.value, b.value))
           && (multiset(order) == multiset(ValueDiff("", [], a.value, b.value)) ==>
                 (Apply(a.value, order) == Some(Embed(b.value)) <==> NothingBecomesNull(a.value, b.value))))
  {
    InterleavedRead(entity, writer, calls, steps, from, i);
    InterleavedRead(entity, writer, calls, steps, to, j);
    var a, b := PayloadOf(decode, calls[i].payload), PayloadOf(decode, calls[j].payload);
    assert LatestInsert(calls, from, i) && LatestInsert(calls, to, j);
    PayloadOfRow(entity, writer, calls, i);
    PayloadOfRow(entity, writer, calls, j);
    assert a.Some? && b.Some? ==>
      Payloads(decode, entity.kind, entity.id,
               Ok(RowAt(entity, writer, calls, i)), Ok(RowAt(entity, writer, calls, j))) == Ok((a.value, b.value));
    hide *;
    if a.Some? && b.Some? && multiset(order) == multiset(ValueDiff("", [], a.value, b.value)) {
      DiffIsLosslessInAnyOrder(a.value, b.value, order);
    }
  }

  lemma PayloadOfRow(entity: Entity, writer: string, calls: seq<Call>, i: nat)
    requires i < |calls|
    ensures RowAt(entity, writer, calls, i).payload == calls[i].payload
  {
  }

  lemma InterleavedRead(entity: Entity, writer: string, calls: seq<Call>, steps: seq<Step>, at: int, i: nat)
    requires Sequential(calls) && StepsFor(steps, entity) == Flatten(entity, writer, calls)
    requires InForce(calls, at, i)
    ensures i < |calls| && Newest(Run([], steps), entity, at) == Some(RowAt(entity, writer, calls, i))
  {
    EntitiesAreIndependent([], steps, entity);
    NewestOfEntity(Run([], steps), entity, at);
    ReaderAgreesWithLog(entity, writer, calls, at, i);
  }
}
