// The table against an append-only log of the calls: what the point-in-time reader returns, and
// how the validity windows of one entity lie, whatever closes and inserts fail.
module LedgerLaws {
  import opened Wrappers
  import opened Ledger

  // The calls for one entity, one after the other, at strictly increasing times.
  ghost predicate Sequential(calls: seq<Call>) {
    forall i, j :: 0 <= i < j < |calls| ==> calls[i].now < calls[j].now
  }

  function Flatten(entity: Entity, writer: string, calls: seq<Call>): seq<Step> {
    if calls == [] then []
    else Flatten(entity, writer, calls[..|calls| - 1]) + StepsOf(entity, writer, calls[|calls| - 1])
  }

  // ---- Closed form of the table ------------------------------------------------------------------

  // The first successful close from call j on ends every row that is open before it.
  function FirstClose(calls: seq<Call>, j: nat): Option<int>
    requires j <= |calls|
    decreases |calls| - j
  {
    if j == |calls| then None
    else if calls[j].closeOk then Some(calls[j].now)
    else FirstClose(calls, j + 1)
  }

  function RowAt(entity: Entity, writer: string, calls: seq<Call>, i: nat): Row
    requires i < |calls|
  {
    NewRow(entity, writer, calls[i]).(validTo := FirstClose(calls, i + 1))
  }

  function RowsFrom(entity: Entity, writer: string, calls: seq<Call>, i: nat): seq<Row>
    requires i <= |calls|
    decreases |calls| - i
  {
    if i == |calls| then []
    else (if calls[i].insertOk then [RowAt(entity, writer, calls, i)] else [])
         + RowsFrom(entity, writer, calls, i + 1)
  }

  lemma {:induction false} RunConcat(rows: seq<Row>, a: seq<Step>, b: seq<Step>)
    ensures Run(rows, a + b) == Run(Run(rows, a), b)
    decreases |a|
  {
    if a == [] {
      assert a + b == b;
    } else {
      assert (a + b)[1..] == a[1..] + b;
      RunConcat(Take(rows, a[0]), a[1..], b);
    }
  }

  lemma {:induction false} FirstCloseAppend(calls: seq<Call>, c: Call, j: nat)
    requires j <= |calls|
    ensures FirstClose(calls + [c], j) == match FirstClose(calls, j)
      case Some(now) => Some(now)
      case None => if c.closeOk then Some(c.now) else None
    decreases |calls| - j
  {
    if j < |calls| {
      FirstCloseAppend(calls, c, j + 1);
    } else {
      assert FirstClose(calls + [c], j + 1) == None;
    }
  }

  // The effect of a further call on rows that are there.
  ghost function Closed(rows: seq<Row>, entity: Entity, c: Call): seq<Row> {
    if c.closeOk then CloseOpen(rows, entity, c.now) else rows
  }

  lemma ClosedConcat(a: seq<Row>, b: seq<Row>, entity: Entity, c: Call)
    ensures Closed(a + b, entity, c) == Closed(a, entity, c) + Closed(b, entity, c)
  {
  }

  lemma {:induction false} RowsAppend(entity: Entity, writer: string, calls: seq<Call>, c: Call, i: nat)
    requires i <= |calls|
    ensures RowsFrom(entity, writer, calls + [c], i)
         == Closed(RowsFrom(entity, writer, calls, i), entity, c)
            + (if c.insertOk then [NewRow(entity, writer, c)] else [])
    decreases |calls| - i
  {
    if i == |calls| {
      assert RowsFrom(entity, writer, calls + [c], i + 1) == [];
      assert FirstClose(calls + [c], i + 1) == None;
    } else {
      hide *;
      RowsAppend(entity, writer, calls, c, i + 1);
      RowsCons(entity, writer, calls, i);
      RowsCons(entity, writer, calls + [c], i);
      RowHereAppend(entity, writer, calls, c, i);
      ClosedConcat(RowHere(entity, writer, calls, i), RowsFrom(entity, writer, calls, i + 1), entity, c);
    }
  }

  function RowHere(entity: Entity, writer: string, calls: seq<Call>, i: nat): seq<Row>
    requires i < |calls|
  {
    if calls[i].insertOk then [RowAt(entity, writer, calls, i)] else []
  }

  lemma RowsCons(entity: Entity, writer: string, calls: seq<Call>, i: nat)
    requires i < |calls|
    ensures RowsFrom(entity, writer, calls, i)
         == RowHere(entity, writer, calls, i) + RowsFrom(entity, writer, calls, i + 1)
  {
  }

  lemma RowHereAppend(entity: Entity, writer: string, calls: seq<Call>, c: Call, i: nat)
    requires i < |calls|
    ensures RowHere(entity, writer, calls + [c], i) == Closed(RowHere(entity, writer, calls, i), entity, c)
  {
    FirstCloseAppend(calls, c, i + 1);
  }

  // The table after a run of calls holds one row per successful insert, ended by the first
  // successful close of a later call.
  lemma {:induction false} TableIsClosedForm(entity: Entity, writer: string, calls: seq<Call>)
    ensures Run([], Flatten(entity, writer, calls)) == RowsFrom(entity, writer, calls, 0)
    decreases |calls|
  {
    if calls != [] {
      var init, c := calls[..|calls| - 1], calls[|calls| - 1];
      assert calls == init + [c];
      TableIsClosedForm(entity, writer, init);
      RunConcat([], Flatten(entity, writer, init), StepsOf(entity, writer, c));
      RunOneCall(RowsFrom(entity, writer, init, 0), entity, writer, c);
      RowsAppend(entity, writer, init, c, 0);
    }
  }

  lemma {:induction false} RowsAreInserts(entity: Entity, writer: string, calls: seq<Call>, i: nat)
    requires i <= |calls|
    ensures forall j :: i <= j < |calls| && calls[j].insertOk ==>
      RowAt(entity, writer, calls, j) in RowsFrom(entity, writer, calls, i)
    ensures forall r :: r in RowsFrom(entity, writer, calls, i) ==>
      exists j :: i <= j < |calls| && calls[j].insertOk && r == RowAt(entity, writer, calls, j)
    decreases |calls| - i
  {
    if i < |calls| {
      RowsAreInserts(entity, writer, calls, i + 1);
    }
  }

  // ---- Validity windows -----------------------------------------------------------------------------

  // A successful close of a call from j on, by time at.
  ghost predicate ClosedBy(calls: seq<Call>, j: nat, at: int) {
    exists k :: j <= k < |calls| && calls[k].closeOk && calls[k].now <= at
  }

  lemma {:induction false} FirstCloseIsEarliest(calls: seq<Call>, j: nat, at: int)
    requires Sequential(calls) && j <= |calls|
    ensures ClosedBy(calls, j, at) <==> FirstClose(calls, j).Some? && FirstClose(calls, j).value <= at
    decreases |calls| - j
  {
    if j < |calls| && !calls[j].closeOk {
      FirstCloseIsEarliest(calls, j + 1, at);
    }
  }

  lemma CoversIff(entity: Entity, writer: string, calls: seq<Call>, i: nat, at: int)
    requires Sequential(calls) && i < |calls|
    ensures Covers(RowAt(entity, writer, calls, i), at) <==> calls[i].now <= at && !ClosedBy(calls, i + 1, at)
  {
    FirstCloseIsEarliest(calls, i + 1, at);
  }

  // Two windows of an entity have a common instant exactly when every close between them failed.
  lemma WindowsOverlapIff(entity: Entity, writer: string, calls: seq<Call>, i: nat, k: nat)
    requires Sequential(calls) && i < k < |calls|
    ensures (exists at :: Covers(RowAt(entity, writer, calls, i), at) && Covers(RowAt(entity, writer, calls, k), at))
       <==> forall j :: i < j <= k ==> !calls[j].closeOk
  {
    var first, second := RowAt(entity, writer, calls, i), RowAt(entity, writer, calls, k);
    if forall j :: i < j <= k ==> !calls[j].closeOk {
      CoversIff(entity, writer, calls, i, calls[k].now);
      CoversIff(entity, writer, calls, k, calls[k].now);
      assert Covers(first, calls[k].now) && Covers(second, calls[k].now);
    }
    forall at | Covers(first, at) && Covers(second, at)
      ensures forall j :: i < j <= k ==> !calls[j].closeOk
    {
      CoversIff(entity, writer, calls, i, at);
      CoversIff(entity, writer, calls, k, at);
    }
  }

  // When no close fails, every row but the last is closed, at the latest when the next one starts:
  // the windows are pairwise disjoint and at most one row is open.
  lemma {:induction false} ClosesKeepWindowsDisjoint(entity: Entity, writer: string, calls: seq<Call>, n: nat)
    requires Sequential(calls) && n <= |calls| && forall j :: 0 <= j < |calls| ==> calls[j].closeOk
    ensures Disjoint(RowsFrom(entity, writer, calls, n))
    ensures forall r :: r in RowsFrom(entity, writer, calls, n) ==> n < |calls| && calls[n].now <= r.validFrom
    decreases |calls| - n
  {
    if n < |calls| {
      ClosesKeepWindowsDisjoint(entity, writer, calls, n + 1);
      var row, rest := RowAt(entity, writer, calls, n), RowsFrom(entity, writer, calls, n + 1);
      var rows := RowsFrom(entity, writer, calls, n);
      forall i, j | 0 <= i < j < |rows| ensures EndsBefore(rows[i], rows[j]) {
        if i == 0 && calls[n].insertOk {
          assert rows == [row] + rest && rows[j] == rest[j - 1] && rest[j - 1] in rest;
          assert row.validTo == Some(calls[n + 1].now);
        } else {
          var shift := if calls[n].insertOk then 1 else 0;
          assert rows[i] == rest[i - shift] && rows[j] == rest[j - shift];
        }
      }
    }
  }

  ghost predicate EndsBefore(row: Row, later: Row) {
    row.validTo.Some? && row.validTo.value <= later.validFrom
  }

  ghost predicate Disjoint(rows: seq<Row>) {
    forall i, j :: 0 <= i < j < |rows| ==> EndsBefore(rows[i], rows[j])
  }

  lemma TableIsDisjoint(entity: Entity, writer: string, calls: seq<Call>)
    requires Sequential(calls) && forall j :: 0 <= j < |calls| ==> calls[j].closeOk
    ensures Disjoint(Run([], Flatten(entity, writer, calls)))
  {
    TableIsClosedForm(entity, writer, calls);
    ClosesKeepWindowsDisjoint(entity, writer, calls, 0);
  }

  // A record for one entity leaves the rows of every other as they are.
  lemma RecordLeavesOthersAlone(rows: seq<Row>, entity: Entity, writer: string, call: Call, other: Entity)
    requires other != entity
    ensures OfEntity(Run(rows, StepsOf(entity, writer, call)), other) == OfEntity(rows, other)
  {
    var steps := StepsOf(entity, writer, call);
    EntitiesAreIndependent(rows, steps, other);
    assert steps[1..] == [steps[1]] && StepsFor([steps[1]], other) == [] && StepsFor(steps, other) == [];
  }

  // When nothing fails the windows abut: each row ends where the next one starts.
  lemma WindowsAbut(entity: Entity, writer: string, calls: seq<Call>)
    requires Sequential(calls) && forall j :: 0 <= j < |calls| ==> calls[j].closeOk && calls[j].insertOk
    ensures Abut(Run([], Flatten(entity, writer, calls)), calls)
  {
    TableIsClosedForm(entity, writer, calls);
    RowsWithoutFailures(entity, writer, calls, 0);
    hide *;
    SpansAbut(Run([], Flatten(entity, writer, calls)), calls);
  }

  lemma SpansAbut(rows: seq<Row>, calls: seq<Call>)
    requires |rows| == |calls| && forall i :: 0 <= i < |rows| ==> Spans(rows[i], calls, 0 + i)
    ensures Abut(rows, calls)
  {
    forall i | 0 <= i < |rows| ensures Spans(rows[i], calls, i) { assert Spans(rows[i], calls, 0 + i); }
  }

  // The row of call i, in force until the next call.
  ghost predicate Spans(row: Row, calls: seq<Call>, i: nat)
    requires i < |calls|
  {
    && row.validFrom == calls[i].now && row.payload == calls[i].payload
    && row.validTo == if i + 1 < |calls| then Some(calls[i + 1].now) else None
  }

  ghost predicate Abut(rows: seq<Row>, calls: seq<Call>) {
    && |rows| == |calls|
    && (forall i :: 0 <= i < |rows| ==> rows[i].validFrom == calls[i].now && rows[i].payload == calls[i].payload)
    && (forall i :: 0 <= i < |rows| - 1 ==> rows[i].validTo == Some(rows[i + 1].validFrom))
    && (rows != [] ==> rows[|rows| - 1].validTo == None)
  }

  lemma {:induction false} RowsWithoutFailures(entity: Entity, writer: string, calls: seq<Call>, n: nat)
    requires n <= |calls| && forall j :: 0 <= j < |calls| ==> calls[j].insertOk
    requires forall j :: 0 <= j < |calls| ==> calls[j].closeOk
    ensures var rows := RowsFrom(entity, writer, calls, n);
      |rows| == |calls| - n && forall i :: 0 <= i < |rows| ==> Spans(rows[i], calls, n + i)
    decreases |calls| - n
  {
    if n < |calls| { RowsWithoutFailures(entity, writer, calls, n + 1); }
  }

  // ---- The reader against the log ----------------------------------------------------------------------

  ghost predicate LatestInsert(calls: seq<Call>, at: int, i: nat) {
    && i < |calls| && calls[i].insertOk && calls[i].now <= at
    && forall j :: i < j < |calls| && calls[j].insertOk ==> calls[j].now > at
  }

  // Reading the table at a time gives the latest successful insert by then, unless a later call
  // by then closed it without inserting.
  lemma ReaderAgreesWithLog(entity: Entity, writer: string, calls: seq<Call>, at: int, i: nat)
    requires Sequential(calls) && LatestInsert(calls, at, i)
    ensures Newest(Run([], Flatten(entity, writer, calls)), entity, at)
         == if ClosedBy(calls, i + 1, at) then None else Some(RowAt(entity, writer, calls, i))
  {
    TableIsClosedForm(entity, writer, calls);
    RowsAreInserts(entity, writer, calls, 0);
    var rows, mine := RowsFrom(entity, writer, calls, 0), RowAt(entity, writer, calls, i);
    CoversIff(entity, writer, calls, i, at);
    forall r | r in rows && Covers(r, at)
      ensures r.validFrom <= mine.validFrom && !ClosedBy(calls, i + 1, at)
      ensures r == mine || r.validFrom < mine.validFrom
    {
      var j :| 0 <= j < |calls| && calls[j].insertOk && r == RowAt(entity, writer, calls, j);
      CoversIff(entity, writer, calls, j, at);
    }
  }

  // With no successful insert by then, nothing is found.
  lemma ReaderBeforeFirstInsert(entity: Entity, writer: string, calls: seq<Call>, at: int)
    requires Sequential(calls) && forall i :: 0 <= i < |calls| && calls[i].insertOk ==> calls[i].now > at
    ensures Newest(Run([], Flatten(entity, writer, calls)), entity, at) == None
  {
    TableIsClosedForm(entity, writer, calls);
    RowsAreInserts(entity, writer, calls, 0);
    forall r | r in RowsFrom(entity, writer, calls, 0) ensures !Covers(r, at) {
      var j :| 0 <= j < |calls| && calls[j].insertOk && r == RowAt(entity, writer, calls, j);
    }
  }

  // The same with the steps of other entities in between, in any interleaving.
  lemma InterleavedReaderAgreesWithLog(entity: Entity, writer: string, calls: seq<Call>, steps: seq<Step>, at: int)
    requires Sequential(calls) && StepsFor(steps, entity) == Flatten(entity, writer, calls)
    ensures match Newest(Run([], steps), entity, at)
      case Some(row) => (exists i: nat ::
        LatestInsert(calls, at, i) && !ClosedBy(calls, i + 1, at) && row == RowAt(entity, writer, calls, i))
      case None => forall i: nat :: LatestInsert(calls, at, i) ==> ClosedBy(calls, i + 1, at)
  {
    EntitiesAreIndependent([], steps, entity);
    NewestOfEntity(Run([], steps), entity, at);
    if exists i: nat :: LatestInsert(calls, at, i) {
      forall i: nat | LatestInsert(calls, at, i)
        ensures Newest(Run([], steps), entity, at)
             == if ClosedBy(calls, i + 1, at) then None else Some(RowAt(entity, writer, calls, i))
      {
        ReaderAgreesWithLog(entity, writer, calls, at, i);
      }
    } else {
      NoLatestInsert(calls, at, |calls|);
      ReaderBeforeFirstInsert(entity, writer, calls, at);
    }
  }

  lemma {:induction false} NoLatestInsert(calls: seq<Call>, at: int, n: nat)
    requires n <= |calls| && forall i: nat :: !LatestInsert(calls, at, i)
    requires forall i :: n <= i < |calls| && calls[i].insertOk ==> calls[i].now > at
    ensures forall i :: 0 <= i < |calls| && calls[i].insertOk ==> calls[i].now > at
  {
    if n > 0 {
      assert !LatestInsert(calls, at, n - 1);
      NoLatestInsert(calls, at, n - 1);
    }
  }

  // ---- Calls that overlap --------------------------------------------------------------------------

  predicate Opens(step: Step, entity: Entity) {
    step.Insert? && step.ok && step.row.entity == entity && step.row.validTo.None?
  }

  predicate Closes(step: Step, entity: Entity) {
    step.Close? && step.ok && step.entity == entity
  }

  function OpenRows(rows: seq<Row>, entity: Entity): nat {
    if rows == [] then 0
    else (if rows[0].entity == entity && rows[0].validTo.None? then 1 else 0) + OpenRows(rows[1..], entity)
  }

  // Inserts of an entity since its last close.
  function OpenedSince(steps: seq<Step>, entity: Entity): nat {
    if steps == [] then 0
    else
      var before, last := OpenedSince(steps[..|steps| - 1], entity), steps[|steps| - 1];
      if Closes(last, entity) then 0 else if Opens(last, entity) then before + 1 else before
  }

  lemma {:induction false} OpenRowsConcat(a: seq<Row>, b: seq<Row>, entity: Entity)
    ensures OpenRows(a + b, entity) == OpenRows(a, entity) + OpenRows(b, entity)
    decreases |a|
  {
    if a == [] {
      assert a + b == b;
    } else {
      assert (a + b)[1..] == a[1..] + b;
      OpenRowsConcat(a[1..], b, entity);
    }
  }

  lemma {:induction false} OpenRowsAfterClose(rows: seq<Row>, closed: Entity, now: int, entity: Entity)
    ensures OpenRows(CloseOpen(rows, closed, now), entity) == if closed == entity then 0 else OpenRows(rows, entity)
    decreases |rows|
  {
    if rows != [] {
      assert CloseOpen(rows, closed, now)[1..] == CloseOpen(rows[1..], closed, now);
      OpenRowsAfterClose(rows[1..], closed, now, entity);
    }
  }

  lemma OpenRowsAfter(rows: seq<Row>, step: Step, entity: Entity)
    ensures OpenRows(Take(rows, step), entity)
         == if Closes(step, entity) then 0 else OpenRows(rows, entity) + if Opens(step, entity) then 1 else 0
  {
    match step
    case Close(closed, now, ok) => OpenRowsAfterClose(rows, closed, now, entity);
    case Insert(row, ok) => OpenRowsConcat(rows, [row], entity);
  }

  // Whatever the steps of however many calls come in, the open rows of an entity are its inserts
  // since its last close.
  lemma {:induction false} OpenRowsAreCounted(steps: seq<Step>, entity: Entity)
    ensures OpenRows(Run([], steps), entity) == OpenedSince(steps, entity)
    decreases |steps|
  {
    if steps != [] {
      var init, last := steps[..|steps| - 1], steps[|steps| - 1];
      assert steps == init + [last];
      OpenRowsAreCounted(init, entity);
      RunConcat([], init, [last]);
      assert Run(Run([], init), [last]) == Take(Run([], init), last) by { assert [last][1..] == []; }
      OpenRowsAfter(Run([], init), last, entity);
    }
  }

  // The steps i and j insert rows of the entity with no close of it in between.
  ghost predicate InsertsMeet(steps: seq<Step>, entity: Entity, i: nat, j: nat) {
    && i < j < |steps| && Opens(steps[i], entity) && Opens(steps[j], entity)
    && forall m :: i < m < j ==> !Closes(steps[m], entity)
  }

  lemma {:induction false} StaysOpened(steps: seq<Step>, entity: Entity, i: nat, n: nat)
    requires i < n <= |steps| && Opens(steps[i], entity) && forall m :: i < m < n ==> !Closes(steps[m], entity)
    ensures OpenedSince(steps[..n], entity) >= 1
    decreases n
  {
    assert steps[..n][..n - 1] == steps[..n - 1];
    if i < n - 1 { StaysOpened(steps, entity, i, n - 1); }
  }

  lemma {:induction false} WasOpened(steps: seq<Step>, entity: Entity, n: nat) returns (i: nat)
    requires n <= |steps| && OpenedSince(steps[..n], entity) >= 1
    ensures i < n && Opens(steps[i], entity) && forall m :: i < m < n ==> !Closes(steps[m], entity)
    decreases n
  {
    assert steps[..n][..n - 1] == steps[..n - 1];
    if Opens(steps[n - 1], entity) { return n - 1; }
    i := WasOpened(steps, entity, n - 1);
  }

  lemma {:induction false} TwoOpenedMeet(steps: seq<Step>, entity: Entity, n: nat)
    requires n <= |steps| && OpenedSince(steps[..n], entity) >= 2
    ensures exists i: nat, j: nat :: InsertsMeet(steps, entity, i, j)
    decreases n
  {
    assert steps[..n][..n - 1] == steps[..n - 1];
    if Opens(steps[n - 1], entity) {
      var i := WasOpened(steps, entity, n - 1);
      assert InsertsMeet(steps, entity, i, n - 1);
    } else {
      TwoOpenedMeet(steps, entity, n - 1);
    }
  }

  // At no moment of a run has an entity two open rows exactly when between any two of its
  // successful inserts there is a successful close of it.
  lemma AtMostOneOpenRowIff(steps: seq<Step>, entity: Entity)
    ensures (forall n: nat :: n <= |steps| ==> OpenRows(Run([], steps[..n]), entity) <= 1)
       <==> !exists i: nat, j: nat :: InsertsMeet(steps, entity, i, j)
  {
    hide Run, OpenRows, OpenedSince;
    if i: nat, j: nat :| InsertsMeet(steps, entity, i, j) {
      StaysOpened(steps, entity, i, j);
      assert steps[..j + 1][..j] == steps[..j];
      OpenRowsAreCounted(steps[..j + 1], entity);
      assert OpenedSince(steps[..j + 1], entity) >= 2 by { OneMoreOpened(steps, entity, j); }
    }
    if n: nat :| n <= |steps| && OpenRows(Run([], steps[..n]), entity) > 1 {
      OpenRowsAreCounted(steps[..n], entity);
      TwoOpenedMeet(steps, entity, n);
    }
  }

  lemma OneMoreOpened(steps: seq<Step>, entity: Entity, j: nat)
    requires j < |steps| && Opens(steps[j], entity)
    ensures OpenedSince(steps[..j + 1], entity) == OpenedSince(steps[..j], entity) + 1
  {
    assert steps[..j + 1][..j] == steps[..j];
  }

  // Calls for one entity that both close before either inserts have none.
  lemma OverlappingCallsLeaveTwoOpenRows(entity: Entity, writer: string, a: Call, b: Call)
    requires a.insertOk && b.insertOk
    ensures var s, t := StepsOf(entity, writer, a), StepsOf(entity, writer, b);
      OpenRows(Run([], [s[0], t[0], s[1], t[1]]), entity) == 2
  {
    var s, t := StepsOf(entity, writer, a), StepsOf(entity, writer, b);
    var steps := [s[0], t[0], s[1], t[1]];
    OpenRowsAreCounted(steps, entity);
    assert steps[..4] == steps && steps[..2][..1] == [s[0]];
    assert OpenedSince(steps[..1], entity) == 0;
    assert OpenedSince(steps[..2], entity) == 0;
    OneMoreOpened(steps, entity, 2);
    OneMoreOpened(steps, entity, 3);
  }

  // ---- Windows of overlapping calls -------------------------------------------------------------------

  // The time of the first successful close of an entity.
  function FirstCloseOf(steps: seq<Step>, entity: Entity): Option<int> {
    if steps == [] then None
    else if Closes(steps[0], entity) then Some(steps[0].now)
    else FirstCloseOf(steps[1..], entity)
  }

  lemma {:induction false} RowsEnd(rows: seq<Row>, steps: seq<Step>, k: nat)
    requires k < |rows|
    ensures k < |Run(rows, steps)|
    ensures Run(rows, steps)[k]
         == if rows[k].validTo.Some? then rows[k] else rows[k].(validTo := FirstCloseOf(steps, rows[k].entity))
    decreases |steps|
  {
    if steps != [] { RowsEnd(Take(rows, steps[0]), steps[1..], k); }
  }

  // In any interleaving an inserted row ends at the first successful close after it. It is in
  // force at no time at all exactly when that close carries a time up to its own start, as when
  // its call read the clock after the other one and was faster.
  lemma WindowIsEmptyIff(steps: seq<Step>, i: nat)
    requires i < |steps| && Opens(steps[i], StepEntity(steps[i]))
    ensures var k, row, end :=
        |Run([], steps[..i])|, steps[i].row, FirstCloseOf(steps[i + 1..], StepEntity(steps[i]));
      && k < |Run([], steps)| && Run([], steps)[k] == row.(validTo := end)
      && ((forall at :: !Covers(row.(validTo := end), at)) <==> end.Some? && end.value <= row.validFrom)
  {
    var before, row := Run([], steps[..i]), steps[i].row;
    assert steps == steps[..i] + steps[i..] && steps[i..] == [steps[i]] + steps[i + 1..];
    RunConcat([], steps[..i], steps[i..]);
    RunCons(before, steps[i], steps[i + 1..]);
    RowsEnd(before + [row], steps[i + 1..], |before|);
    var end := FirstCloseOf(steps[i + 1..], row.entity);
    if !(end.Some? && end.value <= row.validFrom) {
      assert Covers(row.(validTo := end), row.validFrom);
    }
  }

  lemma RunCons(rows: seq<Row>, step: Step, steps: seq<Step>)
    ensures Run(rows, [step] + steps) == Run(Take(rows, step), steps)
  {
    assert ([step] + steps)[1..] == steps;
  }
}
