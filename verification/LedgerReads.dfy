// What the point-in-time reader finds when the calls for an entity overlap: their closes and
// inserts come in any order, with any clock readings and any failures
// (timetravel/recorder.go, timetravel/diff.go).
module LedgerReads {
  import opened Wrappers
  import opened Ledger
  import opened LedgerLaws

  // ---- The rows of any run ---------------------------------------------------------------------------

  // A row after further steps: if it was open, the first successful close of its entity ends it.
  function Ended(row: Row, steps: seq<Step>): Row {
    if row.validTo.Some? then row else row.(validTo := FirstCloseOf(steps, row.entity))
  }

  // The row that step i inserts, as it stands after all the steps.
  function FinalRow(steps: seq<Step>, i: nat): Row
    requires i < |steps| && steps[i].Insert?
  {
    Ended(steps[i].row, steps[i + 1..])
  }

  ghost predicate WasRow(rows: seq<Row>, steps: seq<Step>, r: Row) {
    exists k :: 0 <= k < |rows| && r == Ended(rows[k], steps)
  }

  ghost predicate BecameRow(steps: seq<Step>, r: Row) {
    exists i :: 0 <= i < |steps| && steps[i].Insert? && steps[i].ok && r == FinalRow(steps, i)
  }

  lemma {:induction false} RowsOfRun(rows: seq<Row>, steps: seq<Step>, r: Row)
    ensures r in Run(rows, steps) <==> WasRow(rows, steps, r) || BecameRow(steps, r)
    decreases |steps|
  {
    if steps == [] {
      assert forall k :: 0 <= k < |rows| ==> Ended(rows[k], steps) == rows[k];
    } else {
      RowsOfRun(Take(rows, steps[0]), steps[1..], r);
      BecameCons(steps, r);
      WasRowTake(rows, steps, r);
      hide BecameRow, WasRow, Take;
    }
  }

  // A row the first step inserts is one of those that are there before the others.
  lemma BecameCons(steps: seq<Step>, r: Row)
    requires steps != []
    ensures BecameRow(steps, r) <==>
      (steps[0].Insert? && steps[0].ok && r == Ended(steps[0].row, steps[1..])) || BecameRow(steps[1..], r)
  {
    hide Ended;
    var rest := steps[1..];
    assert forall i :: 0 <= i < |rest| ==> rest[i] == steps[i + 1] && rest[i + 1..] == steps[i + 2..];
    if BecameRow(rest, r) {
      var i :| 0 <= i < |rest| && rest[i].Insert? && rest[i].ok && r == FinalRow(rest, i);
      assert r == FinalRow(steps, i + 1);
    }
    if BecameRow(steps, r) {
      var i :| 0 <= i < |steps| && steps[i].Insert? && steps[i].ok && r == FinalRow(steps, i);
      if i > 0 { assert r == FinalRow(rest, i - 1); }
    }
  }

  lemma WasRowTake(rows: seq<Row>, steps: seq<Step>, r: Row)
    requires steps != []
    ensures WasRow(Take(rows, steps[0]), steps[1..], r) <==>
      WasRow(rows, steps, r) || (steps[0].Insert? && steps[0].ok && r == Ended(steps[0].row, steps[1..]))
  {
    var after := Take(rows, steps[0]);
    forall k | 0 <= k < |rows| ensures Ended(after[k], steps[1..]) == Ended(rows[k], steps) {}
    if WasRow(rows, steps, r) {
      var k :| 0 <= k < |rows| && r == Ended(rows[k], steps);
      assert r == Ended(after[k], steps[1..]);
    }
    if steps[0].Insert? && steps[0].ok && r == Ended(steps[0].row, steps[1..]) {
      assert after[|rows|] == steps[0].row;
    }
  }

  // Whatever the order of the steps: the table holds the rows of the successful inserts, each ended
  // by the first successful close after it.
  lemma RowsAreFinal(steps: seq<Step>, r: Row)
    ensures r in Run([], steps) <==> BecameRow(steps, r)
  {
    RowsOfRun([], steps, r);
  }

  // ---- Reading ------------------------------------------------------------------------------------------

  predicate Inserts(step: Step, entity: Entity) {
    step.Insert? && step.ok && step.row.entity == entity
  }

  // The row that step i inserts is in force at the time.
  ghost predicate InForce(steps: seq<Step>, entity: Entity, at: int, i: nat) {
    i < |steps| && Inserts(steps[i], entity) && Covers(FinalRow(steps, i), at)
  }

  ghost predicate Leads(steps: seq<Step>, entity: Entity, at: int, i: nat) {
    && InForce(steps, entity, at, i)
    && forall j: nat :: InForce(steps, entity, at, j) ==> steps[j].row.validFrom <= steps[i].row.validFrom
  }

  // In any interleaving of any calls the reader finds the row in force that started last, and
  // nothing exactly when none is in force.
  lemma ReaderInAnyInterleaving(steps: seq<Step>, entity: Entity, at: int)
    ensures match Newest(Run([], steps), entity, at)
      case None => forall i: nat :: !InForce(steps, entity, at, i)
      case Some(row) => exists i: nat :: Leads(steps, entity, at, i) && row == FinalRow(steps, i)
  {
    var rows := Run([], steps);
    var found := Newest(rows, entity, at);
    hide Newest, Run, Covers;
    forall i: nat | InForce(steps, entity, at, i)
      ensures found.Some? && steps[i].row.validFrom <= found.value.validFrom
    {
      RowsAreFinal(steps, FinalRow(steps, i));
    }
    if found.Some? {
      RowsAreFinal(steps, found.value);
      var i :| 0 <= i < |steps| && steps[i].Insert? && steps[i].ok && found.value == FinalRow(steps, i);
      assert Leads(steps, entity, at, i);
    }
  }

  // Inserted rows are open, as those of the recorder are.
  ghost predicate InsertsAreOpen(steps: seq<Step>) {
    forall i :: 0 <= i < |steps| && steps[i].Insert? ==> steps[i].row.validTo.None?
  }

  ghost predicate StartsAlone(steps: seq<Step>, entity: Entity, i: nat)
    requires i < |steps| && steps[i].Insert?
  {
    forall j :: 0 <= j < |steps| && j != i && Inserts(steps[j], entity) ==>
      steps[j].row.validFrom != steps[i].row.validFrom
  }

  // The first successful close of the entity after step i carries a time up to `at`.
  predicate EndedBy(steps: seq<Step>, entity: Entity, at: int, i: nat)
    requires i < |steps|
  {
    var end := FirstCloseOf(steps[i + 1..], entity);
    end.Some? && end.value <= at
  }

  // An insert, the latest one or any other, is what the reader finds exactly when by the time asked
  // for it has started and not ended, and every insert that started after it has ended.
  lemma ReaderFindsIff(steps: seq<Step>, entity: Entity, at: int, i: nat)
    requires InsertsAreOpen(steps) && i < |steps| && Inserts(steps[i], entity) && StartsAlone(steps, entity, i)
    ensures Newest(Run([], steps), entity, at) == Some(FinalRow(steps, i)) <==>
      && steps[i].row.validFrom <= at && !EndedBy(steps, entity, at, i)
      && forall j | 0 <= j < |steps| && Inserts(steps[j], entity) ::
           steps[i].row.validFrom < steps[j].row.validFrom <= at ==> EndedBy(steps, entity, at, j)
  {
    ReaderInAnyInterleaving(steps, entity, at);
    var found := Newest(Run([], steps), entity, at);
    hide Newest, Run;
    forall j: nat | j < |steps| && Inserts(steps[j], entity)
      ensures InForce(steps, entity, at, j) <==>
        steps[j].row.validFrom <= at && !EndedBy(steps, entity, at, j)
    {
    }
    hide InForce, EndedBy;
    if found.Some? {
      var k: nat :| Leads(steps, entity, at, k) && found.value == FinalRow(steps, k);
      assert InForce(steps, entity, at, k);
      assert k < |steps| && Inserts(steps[k], entity) by { InForceIsInsert(steps, entity, at, k); }
      assert found.value.validFrom == steps[k].row.validFrom;
      if k != i {
        assert steps[k].row.validFrom != steps[i].row.validFrom;
      }
    }
  }

  lemma InForceIsInsert(steps: seq<Step>, entity: Entity, at: int, i: nat)
    requires InForce(steps, entity, at, i)
    ensures i < |steps| && Inserts(steps[i], entity) && steps[i].row.validFrom <= at
  {
  }

  // ---- Reading at the end ---------------------------------------------------------------------------------

  ghost predicate NoCloseAfter(steps: seq<Step>, entity: Entity, i: nat) {
    forall j :: i < j < |steps| ==> !Closes(steps[j], entity)
  }

  // All the times of the steps have passed.
  ghost predicate Past(steps: seq<Step>, at: int) {
    forall i :: 0 <= i < |steps| ==>
      match steps[i] case Close(_, now, _) => now <= at case Insert(row, _) => row.validFrom <= at
  }

  lemma {:induction false} FirstCloseIsClose(steps: seq<Step>, entity: Entity)
    ensures match FirstCloseOf(steps, entity)
      case None => forall i :: 0 <= i < |steps| ==> !Closes(steps[i], entity)
      case Some(now) => exists i :: 0 <= i < |steps| && Closes(steps[i], entity) && steps[i].now == now
    decreases |steps|
  {
    if steps != [] && !Closes(steps[0], entity) {
      FirstCloseIsClose(steps[1..], entity);
      assert forall i :: 1 <= i < |steps| ==> steps[i] == steps[1..][i - 1];
    }
  }

  // The step inserted a row that no close followed.
  ghost predicate Stands(steps: seq<Step>, entity: Entity, i: nat) {
    i < |steps| && Inserts(steps[i], entity) && NoCloseAfter(steps, entity, i)
  }

  // Then the rows in force are those that stand.
  lemma InForceAtEnd(steps: seq<Step>, entity: Entity, at: int, i: nat)
    requires InsertsAreOpen(steps) && Past(steps, at)
    ensures InForce(steps, entity, at, i) <==> Stands(steps, entity, i)
    ensures Stands(steps, entity, i) ==> FinalRow(steps, i) == steps[i].row
  {
    if i < |steps| && Inserts(steps[i], entity) {
      var rest := steps[i + 1..];
      FirstCloseIsClose(rest, entity);
      assert forall j :: 0 <= j < |rest| ==> rest[j] == steps[i + 1 + j];
      assert forall j :: i < j < |steps| ==> steps[j] == rest[j - i - 1];
      hide FirstCloseOf;
    }
  }

  // Read at the end, an entity shows the row that started last of those that stand.
  lemma ReaderAtEnd(steps: seq<Step>, entity: Entity, at: int)
    requires InsertsAreOpen(steps) && Past(steps, at)
    ensures match Newest(Run([], steps), entity, at)
      case None => forall i: nat :: !Stands(steps, entity, i)
      case Some(row) => exists i: nat ::
        && Stands(steps, entity, i) && row == steps[i].row
        && forall j: nat :: Stands(steps, entity, j) ==> steps[j].row.validFrom <= row.validFrom
  {
    ReaderInAnyInterleaving(steps, entity, at);
    forall i: nat
      ensures InForce(steps, entity, at, i) <==> Stands(steps, entity, i)
      ensures Stands(steps, entity, i) ==> FinalRow(steps, i) == steps[i].row
    {
      InForceAtEnd(steps, entity, at, i);
    }
    var found := Newest(Run([], steps), entity, at);
    hide Newest, Run, InForce, Stands, Past, InsertsAreOpen, FinalRow;
    if found.Some? {
      var i: nat :| Leads(steps, entity, at, i) && found.value == FinalRow(steps, i);
      assert Stands(steps, entity, i);
      StandsIsInsert(steps, entity, i);
      forall j: nat | Stands(steps, entity, j) ensures j < |steps| && steps[j].Insert? {
        StandsIsInsert(steps, entity, j);
      }
    }
  }

  lemma StandsIsInsert(steps: seq<Step>, entity: Entity, i: nat)
    requires Stands(steps, entity, i)
    ensures i < |steps| && Inserts(steps[i], entity)
  {
  }

  // Steps that fail or are of other entities leave what an entity shows alone.
  lemma {:induction false} IdleSteps(rows: seq<Row>, steps: seq<Step>, entity: Entity, at: int)
    requires forall i :: 0 <= i < |steps| ==> StepEntity(steps[i]) != entity || !steps[i].ok
    ensures Newest(Run(rows, steps), entity, at) == Newest(rows, entity, at)
    decreases |steps|
  {
    if steps != [] {
      var after := Take(rows, steps[0]);
      if steps[0].ok {
        EntitiesAreIndependent(rows, [steps[0]], entity);
        assert Run(rows, [steps[0]]) == after by { assert [steps[0]][1..] == []; }
        assert StepsFor([steps[0]], entity) == [];
        NewestOfEntity(rows, entity, at);
        NewestOfEntity(after, entity, at);
      }
      hide Newest, Take, OfEntity;
      IdleSteps(after, steps[1..], entity, at);
    }
  }
}
