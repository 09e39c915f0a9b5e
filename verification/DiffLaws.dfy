// What a reader may rely on about a difference: it is empty exactly for equal payloads, and
// swapping the payloads swaps the entries.
module DiffLaws {
  import opened Text
  import opened Json
  import opened Diff

  // ---- Emptiness ---------------------------------------------------------------------

  lemma {:induction false} EmptyIffEqual(path: string, at: seq<Segment>, from: Json, to: Json)
    ensures ValueDiff(path, at, from, to) == [] <==> from == to
    decreases from, 1
  {
    if ValueDiff(path, at, from, to) == [] && from.Obj? && to.Obj? {
      if MapDiff(path, at, from, to, UnionKeys(from, to)) == [] { EmptyMapDiff(path, at, from, to); }
    } else if ValueDiff(path, at, from, to) == [] && from.Arr? && to.Arr? {
      if SliceDiff(path, at, from, to, 0) == [] { EmptySliceDiff(path, at, from, to); }
    }
  }

  lemma {:induction false} EmptyMapDiff(path: string, at: seq<Segment>, from: Json, to: Json)
    requires from.Obj? && to.Obj? && MapDiff(path, at, from, to, UnionKeys(from, to)) == []
    ensures from == to
    decreases from, 0
  {
    var keys := UnionKeys(from, to);
    hide Sorted, SortedKeys, UnionKeys, MapDiff, JoinPath;
    forall k | k in keys
      ensures k in from.fields && k in to.fields && from.fields[k] == to.fields[k]
    {
      KeyEntries(path, at, from, to, keys, k);
      if k in from.fields && k in to.fields {
        EmptyIffEqual(JoinPath(path, k), at + [Key(k)], from.fields[k], to.fields[k]);
      }
    }
    SameFields(from, to, keys);
  }

  lemma SameFields(from: Json, to: Json, keys: seq<string>)
    requires from.Obj? && to.Obj? && forall k :: k in from.fields || k in to.fields ==> k in keys
    requires forall k :: k in keys ==> k in from.fields && k in to.fields && from.fields[k] == to.fields[k]
    ensures from == to
  {
    assert from.fields.Keys == to.fields.Keys;
    assert from.fields == to.fields;
  }

  lemma {:induction false} EmptySliceDiff(path: string, at: seq<Segment>, from: Json, to: Json)
    requires from.Arr? && to.Arr? && SliceDiff(path, at, from, to, 0) == []
    ensures from == to
    decreases from, 0
  {
    forall i: nat | i < MaxLen(from, to)
      ensures i < |from.items| && i < |to.items| && from.items[i] == to.items[i]
    {
      ItemEntries(path, at, from, to, 0, i);
      if i < |from.items| && i < |to.items| {
        EmptyIffEqual(IndexPath(path, i), at + [Index(i)], from.items[i], to.items[i]);
      }
    }
    var shorter := if |from.items| < |to.items| then |from.items| else |to.items|;
    if shorter < MaxLen(from, to) { ItemEntries(path, at, from, to, 0, shorter); }
    assert from.items == to.items;
  }

  lemma {:induction false} KeyEntries(
      path: string, at: seq<Segment>, from: Json, to: Json, keys: seq<string>, k: string)
    requires from.Obj? && to.Obj? && forall k :: k in keys ==> k in from.fields || k in to.fields
    requires k in keys && MapDiff(path, at, from, to, keys) == []
    ensures KeyDiff(path, at, from, to, k) == []
  {
    if k != keys[0] { KeyEntries(path, at, from, to, keys[1..], k); }
  }

  lemma {:induction false} ItemEntries(path: string, at: seq<Segment>, from: Json, to: Json, j: nat, i: nat)
    requires from.Arr? && to.Arr? && j <= i < MaxLen(from, to)
    requires SliceDiff(path, at, from, to, j) == []
    ensures ItemDiff(path, at, from, to, i) == []
    decreases i - j
  {
    if i != j { ItemEntries(path, at, from, to, j + 1, i); }
  }

  // ---- Symmetry -------------------------------------------------------------------------

  function SwapOp(op: Op): Op {
    match op case Added => Removed case Removed => Added case Changed => Changed
  }

  function Swap(d: FieldDiff): FieldDiff {
    FieldDiff(d.at, d.path, d.newValue, d.oldValue, SwapOp(d.op))
  }

  function SwapAll(diffs: seq<FieldDiff>): seq<FieldDiff> {
    seq(|diffs|, i requires 0 <= i < |diffs| => Swap(diffs[i]))
  }

  lemma SwapAllConcat(a: seq<FieldDiff>, b: seq<FieldDiff>)
    ensures SwapAll(a + b) == SwapAll(a) + SwapAll(b)
  {
  }

  lemma {:induction false} SwappingArguments(path: string, at: seq<Segment>, from: Json, to: Json)
    ensures ValueDiff(path, at, to, from) == SwapAll(ValueDiff(path, at, from, to))
    decreases from, 1, 0
  {
    if from != to && from.Obj? && to.Obj? {
      assert from.fields.Keys + to.fields.Keys == to.fields.Keys + from.fields.Keys;
      SwappingKeys(path, at, from, to, UnionKeys(from, to));
    } else if from != to && from.Arr? && to.Arr? {
      SwappingItems(path, at, from, to, 0);
    }
  }

  lemma {:induction false} SwappingKeys(path: string, at: seq<Segment>, from: Json, to: Json, keys: seq<string>)
    requires from.Obj? && to.Obj? && forall k :: k in keys ==> k in from.fields || k in to.fields
    ensures MapDiff(path, at, to, from, keys) == SwapAll(MapDiff(path, at, from, to, keys))
    decreases from, 0, |keys|
  {
    if keys != [] {
      var k := keys[0];
      if k in from.fields && k in to.fields {
        SwappingArguments(JoinPath(path, k), at + [Key(k)], from.fields[k], to.fields[k]);
      }
      SwappingKeys(path, at, from, to, keys[1..]);
      SwapAllConcat(KeyDiff(path, at, from, to, k), MapDiff(path, at, from, to, keys[1..]));
      assert KeyDiff(path, at, to, from, k) == SwapAll(KeyDiff(path, at, from, to, k));
    }
  }

  lemma {:induction false} SwappingItems(path: string, at: seq<Segment>, from: Json, to: Json, i: nat)
    requires from.Arr? && to.Arr? && i <= MaxLen(from, to)
    ensures SliceDiff(path, at, to, from, i) == SwapAll(SliceDiff(path, at, from, to, i))
    decreases from, 0, MaxLen(from, to) - i
  {
    if i < MaxLen(from, to) {
      if i < |from.items| && i < |to.items| {
        SwappingArguments(IndexPath(path, i), at + [Index(i)], from.items[i], to.items[i]);
      }
      SwappingItems(path, at, from, to, i + 1);
      SwapAllConcat(ItemDiff(path, at, from, to, i), SliceDiff(path, at, from, to, i + 1));
    }
  }
}
