// The walk over a live configuration (config/hot_reload.go), in place: what a pointer points to is
// a cell that the walk writes to, and a tagged pointer ends up shared with the source.
module LiveConfig {
  import opened HotReload
  import opened Wrappers

  // A struct holds its fields and the structs among them; a pointer leads to a cell.
  datatype Content = Plain(text: string) | Inline(slots: seq<Slot>) | Pointer(cell: Cell?)

  datatype Slot = Slot(exported: bool, reloadable: bool, content: Content)

  class Cell {
    var content: Content
    ghost var repr: set<Cell>   // this cell and every cell below it

    constructor (content: Content, ghost repr: set<Cell>)
      ensures this.content == content && this.repr == repr + {this}
    {
      this.content := content;
      this.repr := repr + {this};
    }
  }

  // ---- Structures in memory ------------------------------------------------------------------------

  // The pointers a value holds itself.
  ghost function Roots(v: Content): set<Cell> {
    match v
    case Plain(_) => {}
    case Pointer(cell) => if cell == null then {} else {cell}
    case Inline(slots) => set i, c | 0 <= i < |slots| && c in Roots(slots[i].content) :: c
  }

  // The memory behind a value.
  ghost function Cells(v: Content): (cells: set<Cell>)
    ensures Roots(v) <= cells
    reads Roots(v)
  {
    match v
    case Plain(_) => {}
    case Pointer(c) => if c == null then {} else {c} + c.repr
    case Inline(slots) =>
      assert forall i :: 0 <= i < |slots| ==> Roots(slots[i].content) <= Cells(slots[i].content);
      set i, c | 0 <= i < |slots| && c in Cells(slots[i].content) :: c
  }

  // No cell leads back to itself.
  ghost predicate Grounded(v: Content)
    reads Cells(v)
    decreases Cells(v), v
  {
    match v
    case Plain(_) => true
    case Pointer(c) => c == null || (
      && c in c.repr && Roots(c.content) <= c.repr && c.content.Inline?
      && Cells(c.content) == c.repr - {c} && Grounded(c.content))
    case Inline(slots) => forall i :: 0 <= i < |slots| ==> Grounded(slots[i].content)
  }

  // The configuration value that a tree in memory stands for.
  ghost function ValueOf(v: Content): Value
    requires Grounded(v)
    reads Cells(v)
    decreases Cells(v), v, 1, 0
  {
    match v
    case Plain(text) => Scalar(text)
    case Pointer(c) => if c == null then Ptr(None) else Ptr(Some(ValueOf(c.content)))
    case Inline(slots) => Struct(FieldsOf(v, |slots|))
  }

  ghost function FieldsOf(v: Content, n: nat): (fields: seq<Field>)
    requires Grounded(v) && v.Inline? && n <= |v.slots|
    ensures |fields| == n
    ensures forall i :: 0 <= i < n ==> fields[i] == FieldOf(v.slots[i])
    reads Cells(v)
    decreases Cells(v), v, 0, n
  {
    if n == 0 then []
    else
      assert Cells(v.slots[n - 1].content) <= Cells(v);
      FieldsOf(v, n - 1) + [FieldOf(v.slots[n - 1])]
  }

  ghost function FieldOf(s: Slot): Field
    requires Grounded(s.content)
    reads Cells(s.content)
    decreases Cells(s.content), s.content, 2
  {
    Field(s.exported, s.reloadable, ValueOf(s.content))
  }

  predicate Walked(slot: Slot) { slot.exported && !slot.reloadable }

  // The cells a walk can write to: those behind untagged exported pointers, at any depth.
  ghost function Walk(v: Content): (w: set<Cell>)
    requires Grounded(v)
    ensures w <= Cells(v)
    reads Cells(v)
    decreases Cells(v), v, 0
  {
    match v
    case Plain(_) => {}
    case Pointer(c) => if c == null then {} else {c} + Walk(c.content)
    case Inline(slots) =>
      set i, c | 0 <= i < |slots| && c in WalkIn(slots[i]) :: c
  }

  ghost function WalkIn(slot: Slot): (w: set<Cell>)
    requires Grounded(slot.content)
    ensures w <= Cells(slot.content)
    reads Cells(slot.content)
    decreases Cells(slot.content), slot.content, 1
  {
    if Walked(slot) then Walk(slot.content) else {}
  }

  // What the walk writes to is reached only by the walk, once.
  ghost predicate Walkable(v: Content)
    requires Grounded(v)
    reads Cells(v)
    decreases Cells(v), v
  {
    match v
    case Plain(_) => true
    case Pointer(c) => c == null || Walkable(c.content)
    case Inline(slots) =>
      && (forall i :: 0 <= i < |slots| && Walked(slots[i]) ==> Walkable(slots[i].content))
      && forall i, j :: 0 <= i < |slots| && 0 <= j < |slots| && i != j ==> WalkIn(slots[i]) !! Cells(slots[j].content)
  }

  // What the walk leaves in a struct itself: tagged fields are the source's, pointers included;
  // an untagged pointer stays, whatever happens behind it.
  function MergedContent(d: Content, s: Content): Content {
    match d
    case Inline(slots) => Inline(seq(|slots|, i requires 0 <= i < |slots| =>
      if s.Inline? && i < |s.slots| then MergedSlot(slots[i], s.slots[i]) else slots[i]))
    case _ => d
  }

  function MergedSlot(d: Slot, s: Slot): Slot {
    if !d.exported then d
    else if d.reloadable then d.(content := s.content)
    else d.(content := MergedContent(d.content, s.content))
  }

  // ---- Structs, field by field -------------------------------------------------------------------

  // Two values of one type; the source is not reached by the walk.
  ghost predicate Apart(d: Content, s: Content)
    reads Cells(d), Cells(s)
  {
    Grounded(d) && Grounded(s) && Walkable(d) && Walk(d) !! Cells(s) && SameType(ValueOf(d), ValueOf(s))
  }

  // A field and the memory behind it, as they are at one moment.
  datatype Snap = Snap(field: Field, cells: set<Cell>, walk: set<Cell>)

  ghost predicate Holds(slot: Slot, snap: Snap)
    reads Cells(slot.content)
  {
    Grounded(slot.content) && FieldOf(slot) == snap.field && Cells(slot.content) <= snap.cells
  }

  // The same of a field of the live value, which can be walked.
  ghost predicate HoldsLive(slot: Slot, snap: Snap)
    reads Cells(slot.content)
  {
    && Holds(slot, snap)
    && WalkIn(slot) == snap.walk <= snap.cells && (Walked(slot) ==> Walkable(slot.content))
  }

  // What a field becomes.
  ghost function Merged(d: Snap, s: Snap): Snap
    requires SameType(d.field.value, s.field.value)
  {
    Snap(d.field.(value := MergeField(d.field, s.field)), d.cells + s.cells, d.walk)
  }

  ghost function SnapOf(slot: Slot): (snap: Snap)
    requires Grounded(slot.content)
    ensures Holds(slot, snap) && ((Walked(slot) ==> Walkable(slot.content)) ==> HoldsLive(slot, snap))
    reads Cells(slot.content)
  {
    Snap(FieldOf(slot), Cells(slot.content), WalkIn(slot))
  }

  ghost function WalkOf(snaps: seq<Snap>): set<Cell> {
    set i, c | 0 <= i < |snaps| && c in snaps[i].walk :: c
  }

  ghost function CellsOf(snaps: seq<Snap>): set<Cell> {
    set i, c | 0 <= i < |snaps| && c in snaps[i].cells :: c
  }

  // What is walked behind one field is not behind another.
  ghost predicate Separate(snaps: seq<Snap>) {
    forall i, j :: 0 <= i < |snaps| && 0 <= j < |snaps| && i != j ==> snaps[i].walk !! snaps[j].cells
  }

  ghost predicate HasFields(v: Value, snaps: seq<Snap>) {
    v.Struct? && |v.fields| == |snaps| && forall i :: 0 <= i < |snaps| ==> v.fields[i] == snaps[i].field
  }

  lemma StructOf(v: Content, snaps: seq<Snap>)
    requires v.Inline? && |snaps| == |v.slots| && forall i :: 0 <= i < |snaps| ==> Holds(v.slots[i], snaps[i])
    ensures Grounded(v) && HasFields(ValueOf(v), snaps) && Cells(v) <= CellsOf(snaps)
  {
    hide Roots, FieldOf;
    assert Grounded(v);
    assert forall i :: 0 <= i < |snaps| ==> FieldOf(v.slots[i]) == snaps[i].field;
  }

  // Fields that are walked separately make up a walkable struct.
  lemma LiveStructOf(v: Content, snaps: seq<Snap>)
    requires v.Inline? && |snaps| == |v.slots| && Separate(snaps)
    requires forall i :: 0 <= i < |snaps| ==> HoldsLive(v.slots[i], snaps[i])
    ensures Grounded(v) && Walkable(v) && Walk(v) == WalkOf(snaps)
  {
    StructOf(v, snaps);
    hide ValueOf, Roots, FieldOf, Grounded, Cells, WalkIn;
  }

  lemma OpenPointer(c: Cell)
    requires Grounded(Pointer(c))
    ensures c.content.Inline? && Grounded(c.content) && c !in Cells(c.content)
    ensures Cells(Pointer(c)) == c.repr == {c} + Cells(c.content)
    ensures ValueOf(Pointer(c)) == Ptr(Some(ValueOf(c.content))) && Walk(Pointer(c)) == {c} + Walk(c.content)
  {
  }

  lemma CellsAreAllocated(v: Content)
    ensures forall c :: c in Cells(v) ==> allocated(c)
  {
    RootsAreAllocated(v);
  }

  lemma {:induction false} RootsAreAllocated(v: Content)
    ensures forall c :: c in Roots(v) ==> allocated(c)
  {
    if v.Inline? {
      forall i | 0 <= i < |v.slots| ensures forall c :: c in Roots(v.slots[i].content) ==> allocated(c) {
        RootsAreAllocated(v.slots[i].content);
      }
    }
  }

  lemma CellsOfStruct(v: Content)
    requires v.Inline?
    ensures forall c :: c in Cells(v) <==> exists i :: 0 <= i < |v.slots| && c in Cells(v.slots[i].content)
  {
  }

  ghost function SnapsOf(v: Content, n: nat): (snaps: seq<Snap>)
    requires v.Inline? && Grounded(v) && n <= |v.slots|
    ensures |snaps| == n && forall i :: 0 <= i < n ==> snaps[i] == SnapOf(v.slots[i])
    reads Cells(v)
    decreases n
  {
    if n == 0 then []
    else
      assert Cells(v.slots[n - 1].content) <= Cells(v);
      SnapsOf(v, n - 1) + [SnapOf(v.slots[n - 1])]
  }

  // Two structs of one type, the source not reached by the walk.
  ghost predicate Paired(ds: seq<Snap>, ss: seq<Snap>) {
    && |ds| == |ss| && Separate(ds)
    && (forall i, j :: 0 <= i < |ds| && 0 <= j < |ss| ==> ds[i].walk !! ss[j].cells)
    && (forall i :: 0 <= i < |ds| ==>
         && ds[i].field.exported == ss[i].field.exported && ds[i].field.reloadable == ss[i].field.reloadable
         && SameType(ds[i].field.value, ss[i].field.value))
  }

  ghost function AllMerged(ds: seq<Snap>, ss: seq<Snap>): seq<Snap>
    requires Paired(ds, ss)
  {
    seq(|ds|, i requires 0 <= i < |ds| => Merged(ds[i], ss[i]))
  }

  lemma MergedStruct(d: Value, s: Value, ds: seq<Snap>, ss: seq<Snap>)
    requires SameType(d, s) && HasFields(d, ds) && HasFields(s, ss) && Paired(ds, ss)
    ensures Separate(AllMerged(ds, ss)) && WalkOf(AllMerged(ds, ss)) == WalkOf(ds)
    ensures CellsOf(AllMerged(ds, ss)) <= CellsOf(ds) + CellsOf(ss)
    ensures forall v :: HasFields(v, AllMerged(ds, ss)) ==> v == Merge(d, s)
  {
    var ts := AllMerged(ds, ss);
    forall i | 0 <= i < |ds|
      ensures ts[i].walk == ds[i].walk
      ensures ts[i].field.exported == ds[i].field.exported && ts[i].field.reloadable == ds[i].field.reloadable
    {
    }
    forall c | c in CellsOf(ts) ensures c in CellsOf(ds) + CellsOf(ss) {
      var i :| 0 <= i < |ts| && c in ts[i].cells;
      assert c in ds[i].cells || c in ss[i].cells;
    }
    forall c ensures c in WalkOf(ts) <==> c in WalkOf(ds) {}
    forall v | HasFields(v, ts) ensures v == Merge(d, s) {
      assert v.fields == Merge(d, s).fields;
    }
  }

  lemma StructsMatch(d: Content, s: Content)
    requires d.Inline? && Apart(d, s)
    ensures s.Inline? && |s.slots| == |d.slots| && Grounded(d) && Grounded(s) && Walkable(d) && Walk(d) !! Cells(s)
    ensures SameType(ValueOf(d), ValueOf(s)) && ValueOf(d).Struct?
    ensures MergeUntagged(ValueOf(d), ValueOf(s)) == Merge(ValueOf(d), ValueOf(s))
    ensures forall i :: 0 <= i < |d.slots| ==>
      d.slots[i].exported == s.slots[i].exported && d.slots[i].reloadable == s.slots[i].reloadable
  {
    hide Walk, Walkable, Cells, Roots, Merge;
    assert forall i :: 0 <= i < |d.slots| ==>
      ValueOf(d).fields[i] == FieldOf(d.slots[i]) && ValueOf(s).fields[i] == FieldOf(s.slots[i]);
  }

  // From two pointers down to what they point to.
  lemma Descend(c: Cell, e: Cell)
    requires Apart(Pointer(c), Pointer(e))
    ensures c.content.Inline? && Apart(c.content, e.content) && ValueOf(c.content).Struct?
    ensures c !in Cells(c.content) && c !in Cells(e.content)
    ensures Cells(Pointer(c)) == {c} + Cells(c.content) && Cells(e.content) <= Cells(Pointer(e))
    ensures Walk(Pointer(c)) == {c} + Walk(c.content) && Walk(Pointer(c)) !! Cells(Pointer(e))
    ensures MergeUntagged(ValueOf(Pointer(c)), ValueOf(Pointer(e)))
         == Ptr(Some(Merge(ValueOf(c.content), ValueOf(e.content))))
  {
    OpenPointer(c);
    OpenPointer(e);
    assert Walkable(c.content);
    hide Grounded, ValueOf, Cells, Walk, Merge, Walkable;
  }

  // And back up.
  lemma Ascend(c: Cell)
    requires c.content.Inline? && Grounded(c.content) && Walkable(c.content)
    requires c !in Cells(c.content) && c.repr == {c} + Cells(c.content)
    ensures Grounded(Pointer(c)) && Cells(Pointer(c)) == {c} + Cells(c.content)
    ensures ValueOf(Pointer(c)) == Ptr(Some(ValueOf(c.content))) && Walk(Pointer(c)) == {c} + Walk(c.content)
    ensures Walkable(Pointer(c))
  {
    PointerIsGrounded(c);
    OpenPointer(c);
    hide Grounded, ValueOf, Cells, Walk, Roots;
  }

  lemma PointerIsGrounded(c: Cell)
    requires c.content.Inline? && Grounded(c.content) && c !in Cells(c.content) && c.repr == {c} + Cells(c.content)
    ensures Grounded(Pointer(c))
  {
    hide ValueOf, Walk;
    assert Cells(c.content) == c.repr - {c};
    hide Cells, Roots;
  }

  lemma StaysAsItIs(d: Content, s: Content)
    requires Apart(d, s) && !d.Inline? && (d.Pointer? && s.Pointer? ==> d.cell == null || s.cell == null)
    ensures MergeUntagged(ValueOf(d), ValueOf(s)) == ValueOf(d) && (d.Pointer? ==> s.Pointer?)
  {
  }

  // ---- The walk ----------------------------------------------------------------------------------

  // An untagged exported field.
  method ApplyUntagged(d: Content, s: Content) returns (out: Content)
    requires Apart(d, s)
    modifies Walk(d)
    ensures Grounded(out) && ValueOf(out) == MergeUntagged(old(ValueOf(d)), old(ValueOf(s)))
    ensures Cells(out) <= old(Cells(d)) + old(Cells(s)) && Walk(out) == old(Walk(d)) && Walkable(out)
    ensures out == MergedContent(d, s)
    decreases Cells(d), d, 2
  {
    match d {
      case Inline(_) =>
        StructsMatch(d, s);
        hide *;
        out := ApplyReloadableStruct(d, s);
      case Pointer(c) =>
        assert s.Pointer?;
        if c != null && s.cell != null {
          ApplyBehind(c, s.cell);
        } else {
          StaysAsItIs(d, s);
        }
        return d;
      case Plain(_) =>
        StaysAsItIs(d, s);
        return d;
    }
  }

  // What both sides point to.
  method ApplyBehind(c: Cell, e: Cell)
    requires Apart(Pointer(c), Pointer(e))
    modifies Walk(Pointer(c))
    ensures Grounded(Pointer(c)) && Walkable(Pointer(c)) && Walk(Pointer(c)) == old(Walk(Pointer(c)))
    ensures ValueOf(Pointer(c)) == MergeUntagged(old(ValueOf(Pointer(c))), old(ValueOf(Pointer(e))))
    ensures Cells(Pointer(c)) <= old(Cells(Pointer(c))) + old(Cells(Pointer(e)))
    ensures c.content == MergedContent(old(c.content), old(e.content))
    decreases Cells(Pointer(c)), Pointer(c), 1
  {
    hide *;
    Descend(c, e);
    var inner := ApplyReloadableStruct(c.content, e.content);
    c.content := inner;
    c.repr := {c} + Cells(inner);
    Ascend(c);
  }

  // The body of the loop over the fields.
  method ApplyField(df: Slot, sf: Slot, ghost d: Snap, ghost s: Snap) returns (out: Content)
    requires HoldsLive(df, d) && Holds(sf, s) && d.walk !! s.cells
    requires df.exported == sf.exported && df.reloadable == sf.reloadable && SameType(d.field.value, s.field.value)
    modifies d.walk
    ensures HoldsLive(df.(content := out), Merged(d, s)) && df.(content := out) == MergedSlot(df, sf)
    decreases Cells(df.content), df.content, 3
  {
    hide Grounded, ValueOf, Cells, Walk, Walkable, Merge, MergeUntagged;
    if !df.exported { return df.content; }
    if df.reloadable { return sf.content; }
    out := ApplyUntagged(df.content, sf.content);
  }

  lemma SnapsHold(v: Content, snaps: seq<Snap>)
    requires v.Inline? && Grounded(v) && snaps == SnapsOf(v, |v.slots|)
    ensures |snaps| == |v.slots| && forall i :: 0 <= i < |snaps| ==>
      Holds(v.slots[i], snaps[i]) && snaps[i].cells == Cells(v.slots[i].content)
  {
    PartsAreGrounded(v);
    hide Grounded, Cells, Holds, ValueOf, Walk, SnapsOf;
  }

  lemma Described(v: Content, snaps: seq<Snap>)
    requires v.Inline? && Grounded(v) && snaps == SnapsOf(v, |v.slots|)
    ensures CellsOf(snaps) == Cells(v) && |snaps| == |v.slots| && HasFields(ValueOf(v), snaps)
    ensures forall i :: 0 <= i < |snaps| ==> Holds(v.slots[i], snaps[i]) && snaps[i].cells <= Cells(v)
  {
    hide *;
    SnapsHold(v, snaps);
    PartsAreGrounded(v);
    SnapsAreAll(v, snaps);
    StructOf(v, snaps);
    SnapsCover(snaps);
  }

  lemma DescribedLive(v: Content, snaps: seq<Snap>)
    requires v.Inline? && Grounded(v) && Walkable(v) && snaps == SnapsOf(v, |v.slots|)
    ensures |snaps| == |v.slots| && Separate(snaps) && WalkOf(snaps) == Walk(v)
    ensures forall i :: 0 <= i < |snaps| ==> HoldsLive(v.slots[i], snaps[i]) && snaps[i].walk <= Walk(v)
  {
    PartsAreGrounded(v);
    assert forall i :: 0 <= i < |snaps| ==> HoldsLive(v.slots[i], snaps[i]);
    assert Separate(snaps);
    hide *;
    LiveStructOf(v, snaps);
    SnapsCover(snaps);
  }

  lemma SnapsAreAll(v: Content, snaps: seq<Snap>)
    requires v.Inline? && |snaps| == |v.slots|
    requires forall i :: 0 <= i < |snaps| ==> snaps[i].cells == Cells(v.slots[i].content)
    ensures CellsOf(snaps) == Cells(v)
  {
    CellsOfStruct(v);
    hide Cells, Roots;
  }

  lemma SnapsCover(snaps: seq<Snap>)
    ensures forall i :: 0 <= i < |snaps| ==> snaps[i].cells <= CellsOf(snaps) && snaps[i].walk <= WalkOf(snaps)
  {
  }

  lemma PartsAreGrounded(v: Content)
    requires v.Inline? && Grounded(v)
    ensures forall i :: 0 <= i < |v.slots| ==> Grounded(v.slots[i].content)
  {
  }

  lemma StructsPair(d: Value, s: Value, ds: seq<Snap>, ss: seq<Snap>)
    requires SameType(d, s) && HasFields(d, ds) && HasFields(s, ss) && Separate(ds)
    requires WalkOf(ds) !! CellsOf(ss)
    ensures Paired(ds, ss)
  {
    SnapsCover(ds);
    SnapsCover(ss);
    hide WalkOf, CellsOf;
  }

  lemma SlotBySlot(dst: Content, src: Content, slots: seq<Slot>)
    requires dst.Inline? && src.Inline? && |slots| == |dst.slots| == |src.slots|
    requires forall j :: 0 <= j < |slots| ==> slots[j] == MergedSlot(dst.slots[j], src.slots[j])
    ensures Inline(slots) == MergedContent(dst, src)
  {
    hide MergedSlot;
  }

  method ApplyReloadableStruct(dst: Content, src: Content) returns (out: Content)
    requires dst.Inline? && Apart(dst, src)
    modifies Walk(dst)
    ensures Grounded(out) && Walkable(out) && ValueOf(out) == Merge(old(ValueOf(dst)), old(ValueOf(src)))
    ensures out.Inline? && out == MergedContent(dst, src)
    ensures Walk(out) == old(Walk(dst)) && Cells(out) <= old(Cells(dst)) + old(Cells(src))
    decreases Cells(dst), dst, 1
  {
    hide Grounded, Walkable, ValueOf, Cells, Walk, WalkIn, Roots, Apart, Merge, MergeUntagged, MergeField, SameType,
         FieldsOf, FieldOf, SnapsOf, SnapOf, CellsOf, WalkOf, HasFields, MergedContent, MergedSlot, Walked;
    StructsMatch(dst, src);
    ghost var ds, ss := SnapsOf(dst, |dst.slots|), SnapsOf(src, |src.slots|);
    Described(dst, ds);
    DescribedLive(dst, ds);
    Described(src, ss);
    CellsAreAllocated(dst);
    CellsAreAllocated(src);
    StructsPair(ValueOf(dst), ValueOf(src), ds, ss);
    var slots := dst.slots;
    var i := 0;
    while i < |slots|
      invariant 0 <= i <= |slots| == |dst.slots| == |ds|
      invariant forall j :: i <= j < |ds| ==> slots[j] == dst.slots[j] && HoldsLive(slots[j], ds[j])
      invariant forall j :: 0 <= j < i ==>
        HoldsLive(slots[j], Merged(ds[j], ss[j])) && slots[j] == MergedSlot(dst.slots[j], src.slots[j])
      invariant forall j :: 0 <= j < |ds| ==> Holds(src.slots[j], ss[j])
      invariant forall j, c :: 0 <= j < |ds| && c in ds[j].cells + ss[j].cells ==> allocated(c)
    {
      var inner := ApplyField(slots[i], src.slots[i], ds[i], ss[i]);
      slots := slots[i := slots[i].(content := inner)];
      i := i + 1;
    }
    out := Inline(slots);
    SlotBySlot(dst, src, slots);
    StructOf(out, AllMerged(ds, ss));
    LiveStructOf(out, AllMerged(ds, ss));
    MergedStruct(old(ValueOf(dst)), old(ValueOf(src)), ds, ss);
  }

  // The arguments of ApplyReloadable: nil, something that is not a pointer, a nil pointer of a
  // type, or a pointer to a value of a named type.
  datatype Any = NilValue | NotAPointer | TypedNil | PointerTo(typeName: string, target: Cell)

  datatype ReloadError = NilArgument | NotPointers | DifferentTypes | NotAStruct | Panics

  // The type of what a nil pointer points to is asked for, which panics.
  function Refusal(dst: Any, src: Any): Option<ReloadError>
    reads if dst.PointerTo? then {dst.target} else {}
  {
    if dst.NilValue? || src.NilValue? then Some(NilArgument)
    else if dst.NotAPointer? || src.NotAPointer? then Some(NotPointers)
    else if dst.TypedNil? || src.TypedNil? then Some(Panics)
    else if dst.typeName != src.typeName then Some(DifferentTypes)
    else if !dst.target.content.Inline? then Some(NotAStruct)
    else None
  }

  // Only the struct itself and the cells the walk reaches are written.
  method ApplyReloadable(dst: Any, src: Any) returns (error: Option<ReloadError>)
    requires Refusal(dst, src).None? ==> Apart(Pointer(dst.target), Pointer(src.target))
    modifies if Refusal(dst, src).None? then Walk(Pointer(dst.target)) else {}
    ensures error == old(Refusal(dst, src))
    ensures dst.NilValue? || src.NilValue? ==> error == Some(NilArgument)
    ensures !dst.NilValue? && !src.NilValue? && (dst.NotAPointer? || src.NotAPointer?) ==> error == Some(NotPointers)
    ensures (dst.TypedNil? && (src.TypedNil? || src.PointerTo?)) || (dst.PointerTo? && src.TypedNil?) ==>
      error == Some(Panics)
    ensures dst.PointerTo? && src.PointerTo? ==>
      error == (if dst.typeName != src.typeName then Some(DifferentTypes)
                else if !old(dst.target.content.Inline?) then Some(NotAStruct) else None)
    ensures error.None? ==>
      var live := Pointer(dst.target);
      && Grounded(live) && Walkable(live) && Walk(live) == old(Walk(live))
      && ValueOf(live) == MergeUntagged(old(ValueOf(live)), old(ValueOf(Pointer(src.target))))
      && Cells(live) <= old(Cells(live)) + old(Cells(Pointer(src.target)))
      && dst.target.content == MergedContent(old(dst.target.content), old(src.target.content))
  {
    if dst.NilValue? || src.NilValue? { return Some(NilArgument); }
    if dst.NotAPointer? || src.NotAPointer? { return Some(NotPointers); }
    if dst.TypedNil? || src.TypedNil? { return Some(Panics); }
    if dst.typeName != src.typeName { return Some(DifferentTypes); }
    if !dst.target.content.Inline? { return Some(NotAStruct); }
    ApplyBehind(dst.target, src.target);
    return None;
  }

  // ---- Reload after reload -------------------------------------------------------------------------

  // A configuration after reloads from a list of sources.
  function MergeAll(d: Value, sources: seq<Value>): Value {
    if sources == [] then d
    else
      var before, last := MergeAll(d, sources[..|sources| - 1]), sources[|sources| - 1];
      if SameType(before, last) then MergeUntagged(before, last) else before
  }

  // Configurations of one type.
  ghost predicate OneType(d: Value, sources: seq<Value>) {
    && (forall i :: 0 <= i < |sources| ==> SameType(d, sources[i]))
    && forall i, j :: 0 <= i < |sources| && 0 <= j < |sources| ==> SameType(sources[i], sources[j])
  }

  lemma {:induction false} MergeAllHasType(d: Value, sources: seq<Value>, t: Value)
    requires OneType(d, sources + [t])
    ensures SameType(MergeAll(d, sources), t)
    decreases |sources|
  {
    var all := sources + [t];
    assert all[|sources|] == t;
    if sources != [] {
      var n := |sources| - 1;
      var init, last := sources[..n], sources[n];
      assert all[n] == last;
      assert init + [last] == sources && forall i :: 0 <= i < n ==> (init + [t])[i] == all[i];
      assert forall i :: 0 <= i < n ==> sources[i] == all[i];
      MergeAllHasType(d, init, last);
      MergeAllHasType(d, init, t);
      MergeHasType(MergeAll(d, init), last, t);
    }
  }

  // When the sources agree on nil pointers, only the latest counts.
  lemma {:induction false} OnlyTheLatestCounts(d: Value, sources: seq<Value>)
    requires sources != [] && OneType(d, sources)
    requires forall i, j :: 0 <= i < |sources| && 0 <= j < |sources| ==> NilsAgree(sources[i], sources[j])
    ensures MergeAll(d, sources) == MergeUntagged(d, sources[|sources| - 1])
    decreases |sources|
  {
    var n := |sources| - 1;
    var init, last := sources[..n], sources[n];
    assert sources == init + [last];
    MergeAllHasType(d, init, last);
    if n > 0 {
      OnlyTheLatestCounts(d, init);
      AgreeingSourcesOverride(d, init[n - 1], last);
      LaterApplyWins(d, init[n - 1], last);
    }
  }

  ghost predicate Stands(e: Cell, v: Value, cells: set<Cell>)
    reads Cells(Pointer(e))
  {
    Grounded(Pointer(e)) && ValueOf(Pointer(e)) == v && Cells(Pointer(e)) == cells
  }

  // Reloads, one after the other, from sources that the walk does not reach (and that may share
  // memory with each other and with the rest of the live configuration). The sources keep their
  // values, even where they have come to share memory with the live configuration.
  method Reload(live: Cell, sources: seq<Cell>, ghost values: seq<Value>, ghost cells: seq<set<Cell>>)
    requires |values| == |cells| == |sources| && Grounded(Pointer(live)) && Walkable(Pointer(live))
    requires OneType(ValueOf(Pointer(live)), values)
    requires forall i :: 0 <= i < |sources| ==>
        Stands(sources[i], values[i], cells[i]) && Walk(Pointer(live)) !! cells[i]
    modifies Walk(Pointer(live))
    ensures Grounded(Pointer(live)) && Walkable(Pointer(live))
    ensures ValueOf(Pointer(live)) == MergeAll(old(ValueOf(Pointer(live))), values)
    ensures forall i :: 0 <= i < |sources| ==> Stands(sources[i], values[i], cells[i])
  {
    ghost var start := ValueOf(Pointer(live));
    hide Grounded, ValueOf, Cells, Walk, Walkable, MergeUntagged, SameType;
    forall i | 0 <= i < |sources| ensures forall c :: c in cells[i] ==> allocated(c) {
      CellsAreAllocated(Pointer(sources[i]));
    }
    var i := 0;
    while i < |sources|
      invariant 0 <= i <= |sources|
      invariant Grounded(Pointer(live)) && Walkable(Pointer(live))
      invariant ValueOf(Pointer(live)) == MergeAll(start, values[..i])
      invariant Walk(Pointer(live)) == old(Walk(Pointer(live)))
      invariant forall j :: 0 <= j < |sources| ==>
          Stands(sources[j], values[j], cells[j]) && Walk(Pointer(live)) !! cells[j]
      invariant forall j, c :: 0 <= j < |sources| && c in cells[j] ==> allocated(c)
    {
      ReloadStep(start, values, i);
      ApplyBehind(live, sources[i]);
      i := i + 1;
    }
    assert values[..i] == values;
  }

  lemma ReloadStep(d: Value, sources: seq<Value>, i: nat)
    requires OneType(d, sources) && i < |sources|
    ensures SameType(MergeAll(d, sources[..i]), sources[i])
    ensures MergeAll(d, sources[..i + 1]) == MergeUntagged(MergeAll(d, sources[..i]), sources[i])
  {
    assert sources[..i + 1][..i] == sources[..i] && sources[..i] + [sources[i]] == sources[..i + 1];
    assert OneType(d, sources[..i + 1]);
    MergeAllHasType(d, sources[..i], sources[i]);
  }
}
