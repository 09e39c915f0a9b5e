// The snapshot table after writes in sequence, of any entities and with any failures: read at the
// end it is one register per entity (timetravel/recorder.go, timetravel/diff.go).
module LedgerRegister {
  import opened Ledger
  import opened LedgerLaws
  import opened Wrappers

  datatype Write = Write(entity: Entity, call: Call)

  function Table(writer: string, writes: seq<Write>): seq<Row> {
    if writes == [] then []
    else
      var w := writes[|writes| - 1];
      Run(Table(writer, writes[..|writes| - 1]), StepsOf(w.entity, writer, w.call))
  }

  // The call whose row is the current one: an insert sets it, a close without insert clears it,
  // and a call that fails altogether leaves it.
  function Register(writes: seq<Write>, entity: Entity): Option<Call> {
    if writes == [] then None
    else
      var w, before := writes[|writes| - 1], Register(writes[..|writes| - 1], entity);
      if w.entity != entity then before
      else if w.call.insertOk then Some(w.call)
      else if w.call.closeOk then None
      else before
  }

  // Times of writes increase, and the last is not after the clock.
  ghost predicate Timed(writes: seq<Write>, clock: int) {
    && (forall i :: 0 <= i < |writes| ==> writes[i].call.now <= clock)
    && (forall i, j :: 0 <= i < j < |writes| ==> writes[i].call.now < writes[j].call.now)
  }

  // Rows started and ended by a time.
  ghost predicate Settled(rows: seq<Row>, clock: int) {
    forall r :: r in rows ==> r.validFrom <= clock && (r.validTo.Some? ==> r.validTo.value <= clock)
  }

  lemma WriteSettles(rows: seq<Row>, clock: int, entity: Entity, writer: string, call: Call)
    requires Settled(rows, clock) && clock < call.now
    ensures Settled(Run(rows, StepsOf(entity, writer, call)), call.now)
    ensures forall r :: r in Run(rows, StepsOf(entity, writer, call)) && r.validFrom > clock ==>
      call.insertOk && r == NewRow(entity, writer, call)
    ensures call.closeOk ==> forall r :: r in Run(rows, StepsOf(entity, writer, call)) && r.entity == entity ==>
      r.validTo.Some? || (call.insertOk && r == NewRow(entity, writer, call))
  {
    RunOneCall(rows, entity, writer, call);
    var closed := if call.closeOk then CloseOpen(rows, entity, call.now) else rows;
    forall r | r in closed
      ensures r.validFrom <= clock && (r.validTo.Some? ==> r.validTo.value <= call.now)
      ensures call.closeOk && r.entity == entity ==> r.validTo.Some?
    {
      var i :| 0 <= i < |closed| && closed[i] == r;
      assert rows[i] in rows && (r == rows[i] || r == CloseRow(rows[i], entity, call.now));
    }
    var after := Run(rows, StepsOf(entity, writer, call));
    forall r | r in after ensures r in closed || (call.insertOk && r == NewRow(entity, writer, call)) {}
  }

  // An inserted row shows from then on, whether or not the close before it succeeded.
  lemma WriteShows(rows: seq<Row>, clock: int, entity: Entity, writer: string, call: Call, at: int)
    requires Settled(rows, clock) && clock < call.now <= at && call.insertOk
    ensures Newest(Run(rows, StepsOf(entity, writer, call)), entity, at) == Some(NewRow(entity, writer, call))
  {
    WriteSettles(rows, clock, entity, writer, call);
    RunOneCall(rows, entity, writer, call);
    var after, row := Run(rows, StepsOf(entity, writer, call)), NewRow(entity, writer, call);
    assert after[|after| - 1] == row;
    assert row in after && Covers(row, at);
  }

  // A close without an insert hides what was there.
  lemma WriteHides(rows: seq<Row>, clock: int, entity: Entity, writer: string, call: Call, at: int)
    requires Settled(rows, clock) && clock < call.now <= at && call.closeOk && !call.insertOk
    ensures Newest(Run(rows, StepsOf(entity, writer, call)), entity, at) == None
  {
    WriteSettles(rows, clock, entity, writer, call);
  }

  // A write for one entity leaves what others show alone.
  lemma WriteIsLocal(rows: seq<Row>, entity: Entity, writer: string, call: Call, other: Entity, at: int)
    requires other != entity
    ensures Newest(Run(rows, StepsOf(entity, writer, call)), other, at) == Newest(rows, other, at)
  {
    RecordLeavesOthersAlone(rows, entity, writer, call, other);
    NewestOfEntity(rows, other, at);
    NewestOfEntity(Run(rows, StepsOf(entity, writer, call)), other, at);
  }

  ghost predicate Shows(rows: seq<Row>, writer: string, entity: Entity, at: int, current: Option<Call>) {
    Newest(rows, entity, at) == match current
      case None => None
      case Some(call) => Some(NewRow(entity, writer, call))
  }

  lemma {:induction false} TableSettles(writer: string, writes: seq<Write>, clock: int)
    requires Timed(writes, clock)
    ensures Settled(Table(writer, writes), clock)
    decreases |writes|
  {
    if writes != [] {
      var n := |writes| - 1;
      var before := writes[n].call.now - 1;
      TableSettles(writer, writes[..n], before);
      WriteSettles(Table(writer, writes[..n]), before, writes[n].entity, writer, writes[n].call);
      hide Run, StepsOf, Table;
    }
  }

  // Whatever was written and whatever failed: the reader finds what the register holds.
  lemma {:induction false} TableShowsRegister(writer: string, writes: seq<Write>, entity: Entity, at: int)
    requires Timed(writes, at)
    ensures Shows(Table(writer, writes), writer, entity, at, Register(writes, entity))
    decreases |writes|
  {
    if writes != [] {
      var n := |writes| - 1;
      var w, before := writes[n], Table(writer, writes[..n]);
      assert Timed(writes[..n], at) && Timed(writes[..n], w.call.now - 1);
      TableShowsRegister(writer, writes[..n], entity, at);
      TableSettles(writer, writes[..n], w.call.now - 1);
      RunOneCall(before, w.entity, writer, w.call);
      assert Table(writer, writes) == Run(before, StepsOf(w.entity, writer, w.call));
      hide Run, StepsOf, Table, Newest, Settled;
      if w.entity != entity {
        WriteIsLocal(before, w.entity, writer, w.call, entity, at);
      } else if w.call.insertOk {
        WriteShows(before, w.call.now - 1, entity, writer, w.call, at);
      } else if w.call.closeOk {
        WriteHides(before, w.call.now - 1, entity, writer, w.call, at);
      }
    }
  }

  // ---- The last write of an entity --------------------------------------------------------------------

  function LastWrite(writes: seq<Write>, entity: Entity): Option<Call> {
    if writes == [] then None
    else if writes[|writes| - 1].entity == entity then Some(writes[|writes| - 1].call)
    else LastWrite(writes[..|writes| - 1], entity)
  }

  // The register before the last write of an entity.
  function RegisterBefore(writes: seq<Write>, entity: Entity): Option<Call> {
    if writes == [] then None
    else if writes[|writes| - 1].entity == entity then Register(writes[..|writes| - 1], entity)
    else RegisterBefore(writes[..|writes| - 1], entity)
  }

  lemma {:induction false} RegisterAfterLast(writes: seq<Write>, entity: Entity)
    ensures Register(writes, entity) == match LastWrite(writes, entity)
      case None => None
      case Some(call) =>
        if call.insertOk then Some(call) else if call.closeOk then None else RegisterBefore(writes, entity)
    decreases |writes|
  {
    if writes != [] { RegisterAfterLast(writes[..|writes| - 1], entity); }
  }

  lemma OneMoreWrite(writes: seq<Write>, w: Write, entity: Entity)
    ensures LastWrite(writes + [w], entity) == if w.entity == entity then Some(w.call) else LastWrite(writes, entity)
  {
    assert (writes + [w])[..|writes|] == writes;
  }
}
