// What each entry of a difference says, and where there is one (timetravel/diff.go).
module DiffEntries {
  import opened Text
  import opened Json
  import opened Diff
  import opened DiffPaths
  import opened Wrappers

  // The value at a place of a document, if there is one.
  function Lookup(j: Json, p: seq<Segment>): Option<Json> {
    if p == [] then Some(j)
    else match p[0]
      case Key(k) => if j.Obj? && k in j.fields then Lookup(j.fields[k], p[1..]) else None
      case Index(i) => if j.Arr? && i < |j.items| then Lookup(j.items[i], p[1..]) else None
  }

  function OrNull(v: Option<Json>): Json { if v.Some? then v.value else Null }

  // The entry carries what was there and what is there, null for nothing; it is an addition when
  // nothing or null was there before, a removal when nothing or null is there after, else a change.
  ghost predicate Reports(d: FieldDiff, before: Option<Json>, after: Option<Json>) {
    && d.oldValue == OrNull(before) && d.newValue == OrNull(after)
    && (before == None ==> d.op == Added)
    && (after == None ==> d.op == Removed)
    && (before == Some(Null) && after.Some? ==> d.op == Added)
    && (after == Some(Null) && before.Some? ==> d.op == Removed)
    && (before.Some? && after.Some? && before.value != Null && after.value != Null ==> d.op == Changed)
  }

  predicate BothObjects(v: Option<Json>, w: Option<Json>) { v.Some? && w.Some? && v.value.Obj? && w.value.Obj? }

  predicate BothArrays(v: Option<Json>, w: Option<Json>) { v.Some? && w.Some? && v.value.Arr? && w.value.Arr? }

  // The documents differ at the place, but not inside it; and above it they have the same kind.
  ghost predicate Differs(from: Json, to: Json, p: seq<Segment>) {
    var before, after := Lookup(from, p), Lookup(to, p);
    && before != after && !BothObjects(before, after) && !BothArrays(before, after)
    && forall n :: 0 <= n < |p| ==> SameKindAt(from, to, p[..n])
  }

  ghost predicate SameKindAt(from: Json, to: Json, q: seq<Segment>) {
    BothObjects(Lookup(from, q), Lookup(to, q)) || BothArrays(Lookup(from, q), Lookup(to, q))
  }

  // An entry for the place p below `at`.
  ghost predicate EntryFor(d: FieldDiff, at: seq<Segment>, from: Json, to: Json, p: seq<Segment>) {
    d.at == at + p && Differs(from, to, p) && Reports(d, Lookup(from, p), Lookup(to, p))
  }

  // One step down: what is so of a child is so of the whole.
  lemma DiffersBelow(from: Json, to: Json, s: Segment, p: seq<Segment>)
    requires SameKindAt(from, to, [])
    ensures Differs(from, to, [s] + p) <==>
      var before, after := Lookup(from, [s] + p), Lookup(to, [s] + p);
      && before != after && !BothObjects(before, after) && !BothArrays(before, after)
      && forall n :: 0 <= n < |p| ==> SameKindAt(from, to, [s] + p[..n])
  {
    var q := [s] + p;
    assert forall n :: 0 < n <= |q| ==> q[..n] == [s] + p[..n - 1];
    assert q[..0] == [];
    hide Lookup, SameKindAt;
    if forall n :: 0 <= n < |p| ==> SameKindAt(from, to, [s] + p[..n]) {
      forall n | 0 <= n < |q| ensures SameKindAt(from, to, q[..n]) {
        if n > 0 { assert SameKindAt(from, to, [s] + p[..n - 1]); }
      }
    }
    if forall n :: 0 <= n < |q| ==> SameKindAt(from, to, q[..n]) {
      forall n | 0 <= n < |p| ensures SameKindAt(from, to, [s] + p[..n]) {
        assert SameKindAt(from, to, q[..n + 1]);
      }
    }
  }

  // The children that both documents have under the step.
  lemma ChildDiffers(from: Json, to: Json, s: Segment, p: seq<Segment>, a: Json, b: Json)
    requires SameKindAt(from, to, []) && Lookup(from, [s]) == Some(a) && Lookup(to, [s]) == Some(b)
    ensures Lookup(from, [s] + p) == Lookup(a, p) && Lookup(to, [s] + p) == Lookup(b, p)
    ensures Differs(from, to, [s] + p) <==> Differs(a, b, p)
  {
    DiffersBelow(from, to, s, p);
    LookupBelow(from, s, p, a);
    LookupBelow(to, s, p, b);
    forall n | 0 <= n < |p|
      ensures SameKindAt(from, to, [s] + p[..n]) <==> SameKindAt(a, b, p[..n])
    {
      LookupBelow(from, s, p[..n], a);
      LookupBelow(to, s, p[..n], b);
    }
    hide Lookup, BothObjects, BothArrays, SameKindAt;
  }

  lemma LookupBelow(j: Json, s: Segment, p: seq<Segment>, child: Json)
    requires Lookup(j, [s]) == Some(child)
    ensures Lookup(j, [s] + p) == Lookup(child, p)
  {
    assert ([s] + p)[1..] == p && [s][1..] == [];
  }

  // ---- Every entry is one for its place -------------------------------------------------------------

  lemma {:induction false} EntryIsFor(path: string, at: seq<Segment>, from: Json, to: Json, d: FieldDiff)
    returns (p: seq<Segment>)
    requires d in ValueDiff(path, at, from, to)
    ensures EntryFor(d, at, from, to, p)
    decreases from, 1, 0
  {
    if from.Obj? && to.Obj? {
      var k := KeyOfEntry(path, at, from, to, UnionKeys(from, to), d);
      p := KeyEntryIsFor(path, at, from, to, k, d);
    } else if from.Arr? && to.Arr? {
      var i := ItemOfEntry(path, at, from, to, 0, d);
      p := ItemEntryIsFor(path, at, from, to, i, d);
    } else {
      p := [];
      assert at + p == at;
    }
  }

  lemma {:induction false} KeyOfEntry(
      path: string, at: seq<Segment>, from: Json, to: Json, keys: seq<string>, d: FieldDiff)
    returns (k: string)
    requires from.Obj? && to.Obj? && forall k :: k in keys ==> k in from.fields || k in to.fields
    requires d in MapDiff(path, at, from, to, keys)
    ensures (k in from.fields || k in to.fields) && d in KeyDiff(path, at, from, to, k)
    decreases |keys|
  {
    k := keys[0];
    if d !in KeyDiff(path, at, from, to, k) { k := KeyOfEntry(path, at, from, to, keys[1..], d); }
  }

  lemma {:induction false} ItemOfEntry(path: string, at: seq<Segment>, from: Json, to: Json, n: nat, d: FieldDiff)
    returns (i: nat)
    requires from.Arr? && to.Arr? && n <= MaxLen(from, to) && d in SliceDiff(path, at, from, to, n)
    ensures i < MaxLen(from, to) && d in ItemDiff(path, at, from, to, i)
    decreases MaxLen(from, to) - n
  {
    i := n;
    if d !in ItemDiff(path, at, from, to, i) { i := ItemOfEntry(path, at, from, to, n + 1, d); }
  }

  lemma {:induction false} KeyEntryIsFor(path: string, at: seq<Segment>, from: Json, to: Json, k: string, d: FieldDiff)
    returns (p: seq<Segment>)
    requires from.Obj? && to.Obj? && (k in from.fields || k in to.fields) && d in KeyDiff(path, at, from, to, k)
    ensures EntryFor(d, at, from, to, p)
    decreases from, 0, 0
  {
    if k in from.fields && k in to.fields {
      var a, b := from.fields[k], to.fields[k];
      var q := EntryIsFor(JoinPath(path, k), at + [Key(k)], a, b, d);
      p := BelowIsFor(d, at, from, to, Key(k), q, a, b);
    } else {
      p := [Key(k)];
      OneSided(from, to, Key(k));
    }
  }

  lemma {:induction false} ItemEntryIsFor(path: string, at: seq<Segment>, from: Json, to: Json, i: nat, d: FieldDiff)
    returns (p: seq<Segment>)
    requires from.Arr? && to.Arr? && i < MaxLen(from, to) && d in ItemDiff(path, at, from, to, i)
    ensures EntryFor(d, at, from, to, p)
    decreases from, 0, 0
  {
    if i < |from.items| && i < |to.items| {
      var a, b := from.items[i], to.items[i];
      var q := EntryIsFor(IndexPath(path, i), at + [Index(i)], a, b, d);
      p := BelowIsFor(d, at, from, to, Index(i), q, a, b);
    } else {
      p := [Index(i)];
      OneSided(from, to, Index(i));
    }
  }

  // A place that only one of the documents has.
  lemma OneSided(from: Json, to: Json, s: Segment)
    requires SameKindAt(from, to, []) && (Lookup(from, [s]) == None || Lookup(to, [s]) == None)
    ensures Differs(from, to, [s]) <==> Lookup(from, [s]) != Lookup(to, [s])
  {
    assert [s] + [] == [s];
    DiffersBelow(from, to, s, []);
  }

  lemma BelowIsFor(
      d: FieldDiff, at: seq<Segment>, from: Json, to: Json, s: Segment, q: seq<Segment>, a: Json, b: Json)
    returns (p: seq<Segment>)
    requires SameKindAt(from, to, []) && Lookup(from, [s]) == Some(a) && Lookup(to, [s]) == Some(b)
    requires EntryFor(d, at + [s], a, b, q)
    ensures EntryFor(d, at, from, to, p) && p == [s] + q
  {
    p := [s] + q;
    ChildDiffers(from, to, s, q, a, b);
    assert at + p == at + [s] + q;
    hide Lookup, Differs, Reports, SameKindAt;
  }

  // ---- Every such place has its entry ---------------------------------------------------------------

  lemma {:induction false} PlaceHasEntry(path: string, at: seq<Segment>, from: Json, to: Json, p: seq<Segment>)
    returns (d: FieldDiff)
    requires Differs(from, to, p)
    ensures d in ValueDiff(path, at, from, to) && EntryFor(d, at, from, to, p)
    decreases from, 1, 0
  {
    assert from != to;
    if p == [] {
      d := FieldDiff(at, Diff.PathOrRoot(path), from, to, OpFor(from, to));
      assert at + p == at;
    } else {
      assert SameKindAt(from, to, p[..0]) && p[..0] == [] && p == [p[0]] + p[1..];
      FirstStepIsThere(from, to, p);
      if from.Obj? {
        d := KeyHasEntry(path, at, from, to, p[0].name, p);
        EntryOfKey(path, at, from, to, UnionKeys(from, to), p[0].name, d);
      } else {
        d := ItemHasEntry(path, at, from, to, p[0].i, p);
        EntryOfItem(path, at, from, to, 0, p[0].i, d);
      }
    }
  }

  // A place below two values of one kind that not both have is one step below.
  lemma FirstStepIsThere(from: Json, to: Json, p: seq<Segment>)
    requires p != [] && Differs(from, to, p)
    ensures (from.Obj? && to.Obj? && p[0].Key?) || (from.Arr? && to.Arr? && p[0].Index?)
    ensures Lookup(from, [p[0]]).Some? || Lookup(to, [p[0]]).Some?
    ensures |p| > 1 ==> Lookup(from, [p[0]]).Some? && Lookup(to, [p[0]]).Some?
  {
    assert SameKindAt(from, to, p[..0]) && p[..0] == [];
    assert [p[0]][1..] == [];
    if |p| > 1 { assert SameKindAt(from, to, p[..1]) && p[..1] == [p[0]]; } else { assert p == [p[0]]; }
  }

  lemma {:induction false} KeyHasEntry(
      path: string, at: seq<Segment>, from: Json, to: Json, k: string, p: seq<Segment>)
    returns (d: FieldDiff)
    requires from.Obj? && to.Obj? && p != [] && p[0] == Key(k) && Differs(from, to, p)
    ensures k in from.fields || k in to.fields
    ensures d in KeyDiff(path, at, from, to, k) && EntryFor(d, at, from, to, p)
    decreases from, 0, 0
  {
    FirstStepIsThere(from, to, p);
    assert p == [Key(k)] + p[1..];
    if k in from.fields && k in to.fields {
      var a, b := from.fields[k], to.fields[k];
      ChildDiffers(from, to, Key(k), p[1..], a, b);
      d := PlaceHasEntry(JoinPath(path, k), at + [Key(k)], a, b, p[1..]);
      var _ := BelowIsFor(d, at, from, to, Key(k), p[1..], a, b);
    } else {
      assert p == [Key(k)];
      d := KeyDiff(path, at, from, to, k)[0];
    }
  }

  lemma {:induction false} ItemHasEntry(path: string, at: seq<Segment>, from: Json, to: Json, i: nat, p: seq<Segment>)
    returns (d: FieldDiff)
    requires from.Arr? && to.Arr? && p != [] && p[0] == Index(i) && Differs(from, to, p)
    ensures i < MaxLen(from, to)
    ensures d in ItemDiff(path, at, from, to, i) && EntryFor(d, at, from, to, p)
    decreases from, 0, 0
  {
    FirstStepIsThere(from, to, p);
    assert p == [Index(i)] + p[1..];
    if i < |from.items| && i < |to.items| {
      var a, b := from.items[i], to.items[i];
      ChildDiffers(from, to, Index(i), p[1..], a, b);
      d := PlaceHasEntry(IndexPath(path, i), at + [Index(i)], a, b, p[1..]);
      var _ := BelowIsFor(d, at, from, to, Index(i), p[1..], a, b);
    } else {
      assert p == [Index(i)];
      d := ItemDiff(path, at, from, to, i)[0];
    }
  }

  // Of two documents: an entry says what was and what is at its place, and a place has an entry
  // exactly when the documents differ there and have the same kind everywhere above it.
  lemma EntriesAreTheDifferences(from: Json, to: Json)
    ensures forall d :: d in ValueDiff("", [], from, to) ==>
      Differs(from, to, d.at) && Reports(d, Lookup(from, d.at), Lookup(to, d.at))
    ensures forall p :: Differs(from, to, p) <==> exists d :: d in ValueDiff("", [], from, to) && d.at == p
  {
    hide ValueDiff, Differs, Reports, Lookup;
    forall d | d in ValueDiff("", [], from, to)
      ensures Differs(from, to, d.at) && Reports(d, Lookup(from, d.at), Lookup(to, d.at))
    {
      var p := EntryIsFor("", [], from, to, d);
      assert [] + p == p;
    }
    forall p | Differs(from, to, p) ensures exists d :: d in ValueDiff("", [], from, to) && d.at == p {
      var d := PlaceHasEntry("", [], from, to, p);
      assert [] + p == p;
    }
  }
}
