// The field-level difference of two decoded payloads (timetravel/diff.go).
module Diff {
  import opened Text
  import opened Json

  datatype Segment = Key(name: string) | Index(i: nat)

  datatype Op = Added | Removed | Changed

  // `path` is the text the source reports. `at` is the same place as a list of steps, which a
  // rendered path alone does not always determine.
  datatype FieldDiff = FieldDiff(at: seq<Segment>, path: string, oldValue: Json, newValue: Json, op: Op)

  // ---- Paths ---------------------------------------------------------------------------

  function JoinPath(base: string, segment: string): string {
    if base == "" then segment else base + "." + segment
  }

  function IndexPath(base: string, i: nat): string {
    base + "[" + Itoa(i) + "]"
  }

  function PathOrRoot(path: string): string {
    if path == "" then "$" else path
  }

  function OpFor(from: Json, to: Json): Op {
    if from == Null && to != Null then Added
    else if from != Null && to == Null then Removed
    else Changed
  }

  // ---- The difference as a function --------------------------------------------------------

  function ValueDiff(path: string, at: seq<Segment>, from: Json, to: Json): seq<FieldDiff>
    decreases from, 1, 0
  {
    if from == to then []
    else if from.Obj? && to.Obj? then MapDiff(path, at, from, to, UnionKeys(from, to))
    else if from.Arr? && to.Arr? then SliceDiff(path, at, from, to, 0)
    else [FieldDiff(at, PathOrRoot(path), from, to, OpFor(from, to))]
  }

  function UnionKeys(from: Json, to: Json): (keys: seq<string>)
    requires from.Obj? && to.Obj?
    ensures forall k :: k in keys <==> k in from.fields || k in to.fields
    ensures Sorted(keys)
  {
    SortedKeys(from.fields.Keys + to.fields.Keys)
  }

  function MapDiff(path: string, at: seq<Segment>, from: Json, to: Json, keys: seq<string>): seq<FieldDiff>
    requires from.Obj? && to.Obj? && forall k :: k in keys ==> k in from.fields || k in to.fields
    decreases from, 0, |keys|
  {
    if keys == [] then []
    else KeyDiff(path, at, from, to, keys[0]) + MapDiff(path, at, from, to, keys[1..])
  }

  function KeyDiff(path: string, at: seq<Segment>, from: Json, to: Json, k: string): seq<FieldDiff>
    requires from.Obj? && to.Obj? && (k in from.fields || k in to.fields)
    decreases from, 0, 0
  {
    var child, place := JoinPath(path, k), at + [Key(k)];
    if k !in from.fields then [FieldDiff(place, child, Null, to.fields[k], Added)]
    else if k !in to.fields then [FieldDiff(place, child, from.fields[k], Null, Removed)]
    else ValueDiff(child, place, from.fields[k], to.fields[k])
  }

  function MaxLen(from: Json, to: Json): nat
    requires from.Arr? && to.Arr?
  {
    if |from.items| < |to.items| then |to.items| else |from.items|
  }

  function SliceDiff(path: string, at: seq<Segment>, from: Json, to: Json, i: nat): seq<FieldDiff>
    requires from.Arr? && to.Arr? && i <= MaxLen(from, to)
    decreases from, 0, MaxLen(from, to) - i
  {
    if i == MaxLen(from, to) then []
    else ItemDiff(path, at, from, to, i) + SliceDiff(path, at, from, to, i + 1)
  }

  function ItemDiff(path: string, at: seq<Segment>, from: Json, to: Json, i: nat): seq<FieldDiff>
    requires from.Arr? && to.Arr? && i < MaxLen(from, to)
    decreases from, 0, 0
  {
    var child, place := IndexPath(path, i), at + [Index(i)];
    if i >= |from.items| then [FieldDiff(place, child, Null, to.items[i], Added)]
    else if i >= |to.items| then [FieldDiff(place, child, from.items[i], Null, Removed)]
    else ValueDiff(child, place, from.items[i], to.items[i])
  }

  // ---- jsonEqual, diffValues, diffMaps, diffSlices -------------------------------------------

  // Compares canonical encodings byte by byte, which is structural equality.
  method JsonEqual(a: Json, b: Json) returns (equal: bool)
    requires WellFormed(a) && WellFormed(b)
    ensures equal <==> a == b
  {
    hide Encode, WellFormed;
    if a == Null && b == Null { return true; }
    var ab, bb := Encode(a), Encode(b);
    if |ab| != |bb| { return false; }
    var i := 0;
    while i < |ab|
      invariant 0 <= i <= |ab| && ab[..i] == bb[..i]
    {
      if ab[i] != bb[i] { return false; }
      assert ab[..i + 1] == ab[..i] + [ab[i]] && bb[..i + 1] == bb[..i] + [bb[i]];
      i := i + 1;
    }
    assert ab == ab[..i] && bb[..i] == bb;
    EncodeIsInjective(a, b);
    return true;
  }

  method DiffValues(path: string, at: seq<Segment>, from: Json, to: Json) returns (out: seq<FieldDiff>)
    requires WellFormed(from) && WellFormed(to)
    ensures out == ValueDiff(path, at, from, to)
    decreases from, 1, 0
  {
    var equal := JsonEqual(from, to);
    if equal { return []; }
    if from.Obj? && to.Obj? {
      out := DiffMaps(path, at, from, to);
    } else if from.Arr? && to.Arr? {
      out := DiffSlices(path, at, from, to);
    } else {
      out := [FieldDiff(at, PathOrRoot(path), from, to, OpFor(from, to))];
    }
  }

  // The switch in the body of the loop over the keys.
  method DiffKey(path: string, at: seq<Segment>, from: Json, to: Json, k: string) returns (found: seq<FieldDiff>)
    requires WellFormed(from) && WellFormed(to) && from.Obj? && to.Obj?
    requires k in from.fields || k in to.fields
    ensures found == KeyDiff(path, at, from, to, k)
    decreases from, 0, 0
  {
    var child := JoinPath(path, k);
    if k !in from.fields && k in to.fields {
      found := [FieldDiff(at + [Key(k)], child, Null, to.fields[k], Added)];
    } else if k in from.fields && k !in to.fields {
      found := [FieldDiff(at + [Key(k)], child, from.fields[k], Null, Removed)];
    } else {
      found := DiffValues(child, at + [Key(k)], from.fields[k], to.fields[k]);
    }
  }

  // The switch in the body of the loop over the positions.
  method DiffItem(path: string, at: seq<Segment>, from: Json, to: Json, i: nat) returns (found: seq<FieldDiff>)
    requires WellFormed(from) && WellFormed(to) && from.Arr? && to.Arr? && i < MaxLen(from, to)
    ensures found == ItemDiff(path, at, from, to, i)
    decreases from, 0, 0
  {
    var idxPath := IndexPath(path, i);
    if i >= |from.items| {
      found := [FieldDiff(at + [Index(i)], idxPath, Null, to.items[i], Added)];
    } else if i >= |to.items| {
      found := [FieldDiff(at + [Index(i)], idxPath, from.items[i], Null, Removed)];
    } else {
      found := DiffValues(idxPath, at + [Index(i)], from.items[i], to.items[i]);
    }
  }

  method DiffMaps(path: string, at: seq<Segment>, from: Json, to: Json) returns (out: seq<FieldDiff>)
    requires WellFormed(from) && WellFormed(to) && from.Obj? && to.Obj?
    ensures out == MapDiff(path, at, from, to, UnionKeys(from, to))
    decreases from, 0, 1
  {
    hide Less, Precedes, Sorted, SortedKeys, WellFormed;
    var sorted := UnionKeys(from, to);
    out := [];
    var i := 0;
    assert sorted[0..] == sorted;
    while i < |sorted|
      invariant 0 <= i <= |sorted|
      invariant out + MapDiff(path, at, from, to, sorted[i..]) == MapDiff(path, at, from, to, sorted)
    {
      var found := DiffKey(path, at, from, to, sorted[i]);
      assert sorted[i..][1..] == sorted[i + 1..];
      Regroup(out, found, MapDiff(path, at, from, to, sorted[i + 1..]));
      out := out + found;
      i := i + 1;
    }
  }

  method DiffSlices(path: string, at: seq<Segment>, from: Json, to: Json) returns (out: seq<FieldDiff>)
    requires WellFormed(from) && WellFormed(to) && from.Arr? && to.Arr?
    ensures out == SliceDiff(path, at, from, to, 0)
    decreases from, 0, 1
  {
    out := [];
    var maxLen := |from.items|;
    if |to.items| > maxLen { maxLen := |to.items|; }
    var i := 0;
    while i < maxLen
      invariant 0 <= i <= maxLen
      invariant out + SliceDiff(path, at, from, to, i) == SliceDiff(path, at, from, to, 0)
    {
      var found := DiffItem(path, at, from, to, i);
      Regroup(out, found, SliceDiff(path, at, from, to, i + 1));
      out := out + found;
      i := i + 1;
    }
  }

  // ---- Sorting by rendered path ---------------------------------------------------------------

  ghost predicate SortedByPath(diffs: seq<FieldDiff>) {
    forall i, j :: 0 <= i < j < |diffs| ==> !Precedes(diffs[j].path, diffs[i].path)
  }

  // One step of the sort: d takes its place in a sorted list.
  method InsertByPath(diffs: seq<FieldDiff>, d: FieldDiff) returns (out: seq<FieldDiff>)
    requires SortedByPath(diffs)
    ensures SortedByPath(out) && multiset(out) == multiset(diffs) + multiset{d}
  {
    hide Less, Precedes, SortedByPath;
    forall j | 0 <= j < |diffs| ensures Less(d.path, diffs[j].path) <==> Precedes(d.path, diffs[j].path) {
      LessIff(d.path, diffs[j].path);
    }
    var i := |diffs|;
    while i > 0 && Less(d.path, diffs[i - 1].path)
      invariant 0 <= i <= |diffs|
      invariant forall j :: i <= j < |diffs| ==> Precedes(d.path, diffs[j].path)
    {
      i := i - 1;
    }
    out := diffs[..i] + [d] + diffs[i..];
    InsertKeepsSorted(diffs, d, i);
    assert diffs == diffs[..i] + diffs[i..];
  }

  lemma NotBeforeIsTransitive(a: string, b: string, c: string)
    requires !Precedes(a, b) && !Precedes(b, c)
    ensures !Precedes(a, c)
  {
    hide Precedes;
    PrecedesIsStrictOrder(a, b, c);
    PrecedesIsStrictOrder(b, a, c);
    PrecedesIsStrictOrder(b, c, a);
    PrecedesIsStrictOrder(a, c, b);
  }

  lemma InsertKeepsSorted(diffs: seq<FieldDiff>, d: FieldDiff, i: nat)
    requires i <= |diffs| && SortedByPath(diffs) && (i > 0 ==> !Precedes(d.path, diffs[i - 1].path))
    requires forall j :: i <= j < |diffs| ==> Precedes(d.path, diffs[j].path)
    ensures SortedByPath(diffs[..i] + [d] + diffs[i..])
  {
    hide Precedes;
    forall j | 0 <= j < i ensures !Precedes(d.path, diffs[j].path) {
      if j < i - 1 { NotBeforeIsTransitive(d.path, diffs[i - 1].path, diffs[j].path); }
    }
    forall j | i <= j < |diffs| ensures !Precedes(diffs[j].path, d.path) {
      PrecedesIsStrictOrder(d.path, diffs[j].path, d.path);
    }
    var out := diffs[..i] + [d] + diffs[i..];
    forall j, k | 0 <= j < k < |out| ensures !Precedes(out[k].path, out[j].path) {
      assert out[j] == if j < i then diffs[j] else if j == i then d else diffs[j - 1];
      assert out[k] == if k < i then diffs[k] else if k == i then d else diffs[k - 1];
    }
  }

  lemma OneMoreEntry(diffs: seq<FieldDiff>, i: nat)
    requires i < |diffs|
    ensures multiset(diffs[..i + 1]) == multiset(diffs[..i]) + multiset{diffs[i]}
  {
    assert diffs[..i + 1] == diffs[..i] + [diffs[i]];
  }

  lemma SortedNothing()
    ensures SortedByPath([])
  {
  }

  // The difference of two payloads, in some order that is sorted by path.
  method DiffPayloads(from: Json, to: Json) returns (diffs: seq<FieldDiff>)
    requires WellFormed(from) && WellFormed(to)
    ensures SortedByPath(diffs)
    ensures multiset(diffs) == multiset(ValueDiff("", [], from, to))
  {
    var found := DiffValues("", [], from, to);
    hide Less, Precedes, SortedByPath, ValueDiff, WellFormed;
    diffs := [];
    SortedNothing();
    var i := 0;
    while i < |found|
      invariant 0 <= i <= |found|
      invariant SortedByPath(diffs) && multiset(diffs) == multiset(found[..i])
    {
      OneMoreEntry(found, i);
      diffs := InsertByPath(diffs, found[i]);
      i := i + 1;
    }
    assert found[..i] == found;
  }
}
