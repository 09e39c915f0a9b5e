// The entity snapshot table, its recorder and its point-in-time reader
// (timetravel/recorder.go, timetravel/diff.go).
module Ledger {
  import opened Wrappers

  // ---- Rows and change contexts ------------------------------------------------------------

  datatype ChangeContext = ChangeContext(changedBy: Uuid, reason: string)

  // A UUID by its 32 hexadecimal digits.
  type Uuid = u: seq<nat> | |u| == 32 && forall i :: 0 <= i < |u| ==> u[i] < 16
    witness seq(32, _ => 0)

  function NilUuid(): Uuid { seq(32, _ => 0) }

  // The change context threaded through a call; an absent one and an empty reason are the system's.
  function ChangeContextFromContext(installed: Option<ChangeContext>): (cc: ChangeContext)
    ensures cc.reason != ""
    ensures installed.None? ==> cc == ChangeContext(seq(32, _ => 0), "system")
    ensures installed.Some? ==>
      && cc.changedBy == installed.value.changedBy
      && cc.reason == if installed.value.reason == "" then "system" else installed.value.reason
  {
    match installed
    case None => ChangeContext(NilUuid(), "system")
    case Some(cc) => if cc.reason == "" then cc.(reason := "system") else cc
  }

  datatype Entity = Entity(kind: string, id: string)

  // The random row id is left out: nothing reads it.
  datatype Row = Row(
    entity: Entity, payload: string, validFrom: int, validTo: Option<int>,
    writerService: string, changedBy: Uuid, changeReason: string, createdAt: int)

  // The row is in force from validFrom up to, but not including, validTo.
  predicate Covers(row: Row, at: int) {
    row.validFrom <= at && (row.validTo.None? || row.validTo.value > at)
  }

  // ---- The two database steps of one call -----------------------------------------------------

  // A step that fails leaves the table alone.
  datatype Step =
    | Close(entity: Entity, now: int, ok: bool)
    | Insert(row: Row, ok: bool)

  function CloseRow(row: Row, entity: Entity, now: int): Row {
    if row.entity == entity && row.validTo.None? then row.(validTo := Some(now)) else row
  }

  function CloseOpen(rows: seq<Row>, entity: Entity, now: int): seq<Row> {
    seq(|rows|, i requires 0 <= i < |rows| => CloseRow(rows[i], entity, now))
  }

  function Take(rows: seq<Row>, step: Step): seq<Row> {
    match step
    case Close(entity, now, ok) => if ok then CloseOpen(rows, entity, now) else rows
    case Insert(row, ok) => if ok then rows + [row] else rows
  }

  function Run(rows: seq<Row>, steps: seq<Step>): seq<Row>
    decreases |steps|
  {
    if steps == [] then rows else Run(Take(rows, steps[0]), steps[1..])
  }

  // One call for an entity: what it records, when, and which of its steps succeed.
  datatype Call = Call(payload: string, now: int, cc: ChangeContext, closeOk: bool, insertOk: bool)

  function NewRow(entity: Entity, writer: string, call: Call): Row {
    Row(entity, call.payload, call.now, None, writer, call.cc.changedBy, call.cc.reason, call.now)
  }

  function StepsOf(entity: Entity, writer: string, call: Call): seq<Step> {
    [Close(entity, call.now, call.closeOk), Insert(NewRow(entity, writer, call), call.insertOk)]
  }

  lemma RunOneCall(rows: seq<Row>, entity: Entity, writer: string, call: Call)
    ensures var closed := if call.closeOk then CloseOpen(rows, entity, call.now) else rows;
      Run(rows, StepsOf(entity, writer, call))
      == if call.insertOk then closed + [NewRow(entity, writer, call)] else closed
  {
    var steps := StepsOf(entity, writer, call);
    assert steps[1..] == [steps[1]] && steps[1..][1..] == [];
    assert Run(rows, steps) == Run(Take(rows, steps[0]), steps[1..]);
    assert Run(Take(rows, steps[0]), steps[1..]) == Run(Take(Take(rows, steps[0]), steps[1]), []);
  }

  datatype RecordError = NotConfigured | KindAndIdRequired | MarshalFailed | InsertFailed

  datatype LoadError = LoaderNotConfigured | SnapshotNotFound | LoadFailed

  // The row of an entity in force at a time; of several, one that started last.
  function Newest(rows: seq<Row>, entity: Entity, at: int): (found: Option<Row>)
    ensures found.None? <==> forall r :: r in rows && r.entity == entity ==> !Covers(r, at)
    ensures found.Some? ==>
      && found.value in rows && found.value.entity == entity && Covers(found.value, at)
      && forall r :: r in rows && r.entity == entity && Covers(r, at) ==> r.validFrom <= found.value.validFrom
  {
    if rows == [] then None
    else
      var rest := Newest(rows[1..], entity, at);
      assert rows == [rows[0]] + rows[1..];
      if rows[0].entity == entity && Covers(rows[0], at)
         && (rest.None? || rows[0].validFrom >= rest.value.validFrom)
      then Some(rows[0]) else rest
  }

  class GORMRecorder {
    const connected: bool
    const writerService: string
    var rows: seq<Row>

    constructor (connected: bool, writerService: string)
      ensures rows == [] && this.connected == connected
      ensures this.writerService == if writerService == "" then "unknown-service" else writerService
    {
      this.connected := connected;
      this.writerService := if writerService == "" then "unknown-service" else writerService;
      rows := [];
    }

    // `data` is the marshaled payload, None when marshaling fails. `closeOk` and `insertOk` say
    // whether the database carries out the two statements.
    method RecordEntity(ctx: Option<ChangeContext>, kind: string, id: string, data: Option<string>,
                        now: int, closeOk: bool, insertOk: bool)
      returns (result: Result<(), RecordError>)
      modifies this
      ensures !connected ==> result == Err(NotConfigured)
      ensures connected && (kind == "" || id == "") ==> result == Err(KindAndIdRequired)
      ensures connected && kind != "" && id != "" && data.None? ==> result == Err(MarshalFailed)
      ensures if connected && kind != "" && id != "" && data.Some? then
          && rows == Run(old(rows), StepsOf(Entity(kind, id), writerService,
               Call(data.value, now, ChangeContextFromContext(ctx), closeOk, insertOk)))
          && result == (if insertOk then Ok(()) else Err(InsertFailed))
        else rows == old(rows)
      // Spelled out: the open rows of the entity end now, if the close succeeds, and one row comes last,
      // if the insert does.
      ensures connected && kind != "" && id != "" && data.Some? ==>
        && |rows| == |old(rows)| + (if insertOk then 1 else 0)
        && (forall i :: 0 <= i < |old(rows)| ==>
             rows[i] == if closeOk && old(rows)[i].entity == Entity(kind, id) && old(rows)[i].validTo.None?
                        then old(rows)[i].(validTo := Some(now)) else old(rows)[i])
        && (insertOk ==>
             var row, cc := rows[|old(rows)|], ChangeContextFromContext(ctx);
             && row.entity == Entity(kind, id) && row.payload == data.value && row.writerService == writerService
             && row.validFrom == now && row.validTo == None && row.createdAt == now
             && row.changedBy == cc.changedBy && row.changeReason == cc.reason)
    {
      if !connected { return Err(NotConfigured); }
      if kind == "" || id == "" { return Err(KindAndIdRequired); }
      if data.None? { return Err(MarshalFailed); }
      RunOneCall(rows, Entity(kind, id), writerService,
        Call(data.value, now, ChangeContextFromContext(ctx), closeOk, insertOk));
      if closeOk {
        rows := CloseOpen(rows, Entity(kind, id), now);
      }
      var cc := ChangeContextFromContext(ctx);
      var row := Row(Entity(kind, id), data.value, now, None, writerService, cc.changedBy, cc.reason, now);
      if !insertOk { return Err(InsertFailed); }
      rows := rows + [row];
      return Ok(());
    }

    // `readOk`: does the database answer the query?
    function LoadSnapshotAt(kind: string, id: string, at: int, readOk: bool): (result: Result<Row, LoadError>)
      reads this
      ensures result.Err? && result.error == LoaderNotConfigured <==> !connected
      ensures result.Err? && result.error == LoadFailed <==> connected && !readOk
      ensures result.Err? && result.error == SnapshotNotFound <==>
        connected && readOk && forall r :: r in rows && r.entity == Entity(kind, id) ==> !Covers(r, at)
      ensures result.Ok? ==>
        && result.value in rows && result.value.entity == Entity(kind, id) && Covers(result.value, at)
        && forall r :: r in rows && r.entity == Entity(kind, id) && Covers(r, at) ==>
          r.validFrom <= result.value.validFrom
    {
      if !connected then Err(LoaderNotConfigured)
      else if !readOk then Err(LoadFailed)
      else match Newest(rows, Entity(kind, id), at)
        case None => Err(SnapshotNotFound)
        case Some(row) => Ok(row)
    }
  }

  // ---- Entities do not interfere -----------------------------------------------------------------

  function OfEntity(rows: seq<Row>, entity: Entity): seq<Row> {
    if rows == [] then []
    else (if rows[0].entity == entity then [rows[0]] else []) + OfEntity(rows[1..], entity)
  }

  function StepEntity(step: Step): Entity {
    match step case Close(entity, _, _) => entity case Insert(row, _) => row.entity
  }

  function StepsFor(steps: seq<Step>, entity: Entity): seq<Step> {
    if steps == [] then []
    else (if StepEntity(steps[0]) == entity then [steps[0]] else []) + StepsFor(steps[1..], entity)
  }

  lemma {:induction false} OfEntityConcat(a: seq<Row>, b: seq<Row>, entity: Entity)
    ensures OfEntity(a + b, entity) == OfEntity(a, entity) + OfEntity(b, entity)
    decreases |a|
  {
    if a == [] {
      assert a + b == b;
    } else {
      assert (a + b)[1..] == a[1..] + b;
      OfEntityConcat(a[1..], b, entity);
    }
  }

  lemma {:induction false} OfEntityClose(rows: seq<Row>, closed: Entity, now: int, entity: Entity)
    ensures OfEntity(CloseOpen(rows, closed, now), entity)
         == if closed == entity then CloseOpen(OfEntity(rows, entity), entity, now) else OfEntity(rows, entity)
    decreases |rows|
  {
    if rows != [] {
      var rest := rows[1..];
      OfEntityClose(rest, closed, now, entity);
      CloseCons(rows, closed, now);
      OfEntityCons(rows, entity);
      OfEntityCons(CloseOpen(rows, closed, now), entity);
      if rows[0].entity == entity {
        CloseCons(OfEntity(rows, entity), entity, now);
      }
      hide OfEntity, CloseOpen;
    }
  }

  lemma CloseCons(rows: seq<Row>, closed: Entity, now: int)
    requires rows != []
    ensures CloseOpen(rows, closed, now) == [CloseRow(rows[0], closed, now)] + CloseOpen(rows[1..], closed, now)
  {
  }

  lemma OfEntityCons(rows: seq<Row>, entity: Entity)
    requires rows != []
    ensures OfEntity(rows, entity)
         == if rows[0].entity == entity then [rows[0]] + OfEntity(rows[1..], entity) else OfEntity(rows[1..], entity)
  {
  }

  // The rows of an entity after any interleaving of steps are those its own steps produce.
  lemma {:induction false} EntitiesAreIndependent(rows: seq<Row>, steps: seq<Step>, entity: Entity)
    ensures OfEntity(Run(rows, steps), entity) == Run(OfEntity(rows, entity), StepsFor(steps, entity))
    decreases |steps|
  {
    if steps != [] {
      var step, mine := steps[0], OfEntity(rows, entity);
      match step {
        case Close(closed, now, _) => OfEntityClose(rows, closed, now, entity);
        case Insert(row, _) => OfEntityConcat(rows, [row], entity);
      }
      assert OfEntity(Take(rows, step), entity) == if StepEntity(step) == entity then Take(mine, step) else mine;
      EntitiesAreIndependent(Take(rows, step), steps[1..], entity);
      if StepEntity(step) == entity {
        assert StepsFor(steps, entity) == [step] + StepsFor(steps[1..], entity);
        assert StepsFor(steps, entity)[1..] == StepsFor(steps[1..], entity);
      } else {
        assert StepsFor(steps, entity) == StepsFor(steps[1..], entity);
      }
    }
  }

  lemma {:induction false} NewestOfEntity(rows: seq<Row>, entity: Entity, at: int)
    ensures Newest(rows, entity, at) == Newest(OfEntity(rows, entity), entity, at)
    decreases |rows|
  {
    if rows != [] {
      NewestOfEntity(rows[1..], entity, at);
      if rows[0].entity == entity {
        assert OfEntity(rows, entity) == [rows[0]] + OfEntity(rows[1..], entity);
        assert OfEntity(rows, entity)[1..] == OfEntity(rows[1..], entity);
      } else {
        assert OfEntity(rows, entity) == OfEntity(rows[1..], entity);
      }
    }
  }
}
