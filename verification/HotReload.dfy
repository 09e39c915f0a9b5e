// Selective config reload (config/hot_reload.go): copying the fields tagged as reloadable from a
// fresh configuration into the live one, on configuration values. The walk in place is in LiveConfig.
module HotReload {
  import opened Wrappers

  // A configuration value. Scalar stands for every kind the walk does not look into (numbers,
  // strings, maps, slices, pointers to them); Ptr is a pointer to a struct.
  datatype Value = Scalar(text: string) | Struct(fields: seq<Field>) | Ptr(target: Option<Value>)

  datatype Field = Field(exported: bool, reloadable: bool, value: Value)

  // Two values of one Go type. Behind nil pointers there is nothing to compare.
  predicate SameType(a: Value, b: Value)
    decreases a
  {
    match a
    case Scalar(_) => b.Scalar?
    case Struct(fields) =>
      && b.Struct? && |b.fields| == |fields|
      && forall i | 0 <= i < |fields| ::
           && fields[i].exported == b.fields[i].exported && fields[i].reloadable == b.fields[i].reloadable
           && SameType(fields[i].value, b.fields[i].value)
    case Ptr(target) =>
      && b.Ptr?
      && (target.Some? ==> target.value.Struct?) && (b.target.Some? ==> b.target.value.Struct?)
      && (target.Some? && b.target.Some? ==> SameType(target.value, b.target.value))
  }

  // ---- The merge ----------------------------------------------------------------------------

  function Merge(dst: Value, src: Value): Value
    requires dst.Struct? && SameType(dst, src)
    decreases dst, 0
  {
    Struct(seq(|dst.fields|, i requires 0 <= i < |dst.fields| =>
      dst.fields[i].(value := MergeField(dst.fields[i], src.fields[i]))))
  }

  function MergeField(d: Field, s: Field): Value
    requires SameType(d.value, s.value)
    decreases d.value, 2
  {
    if !d.exported then d.value
    else if d.reloadable then s.value
    else MergeUntagged(d.value, s.value)
  }

  // Structs are walked, and so are pointers that are set on both sides.
  function MergeUntagged(d: Value, s: Value): Value
    requires SameType(d, s)
    decreases d, 1
  {
    match d
    case Struct(_) => Merge(d, s)
    case Ptr(Some(target)) => if s.target.Some? then Ptr(Some(Merge(target, s.target.value))) else d
    case _ => d
  }

  // ---- What is where ------------------------------------------------------------------------------

  // The fields of a struct, or of the struct a pointer points to.
  function Fields(v: Value): (fields: seq<Field>)
    ensures forall f :: f in fields ==> f.value < v
  {
    match v
    case Struct(fields) => fields
    case Ptr(Some(Struct(fields))) => fields
    case _ => []
  }

  // The value at a path of field numbers, through structs and set pointers.
  function At(v: Value, path: seq<nat>): Option<Value>
    decreases |path|
  {
    if path == [] then Some(v)
    else if path[0] < |Fields(v)| then At(Fields(v)[path[0]].value, path[1..])
    else None
  }

  // What a value is, without what is below it.
  datatype Shape = Absent | Leaf(text: string) | StructOf(n: nat) | NilPtr | SetPtr

  function ShapeAt(v: Value, path: seq<nat>): Shape {
    match At(v, path)
    case None => Absent
    case Some(Scalar(text)) => Leaf(text)
    case Some(Struct(fields)) => StructOf(|fields|)
    case Some(Ptr(None)) => NilPtr
    case Some(Ptr(Some(_))) => SetPtr
  }

  // The path leads into a tagged exported field that the walk reaches: through exported structs
  // and pointers set on both sides.
  predicate Reloaded(d: Value, s: Value, path: seq<nat>)
    decreases |path|
  {
    && path != [] && path[0] < |Fields(d)| && path[0] < |Fields(s)|
    && var f := Fields(d)[path[0]];
       f.exported && (f.reloadable || Reloaded(f.value, Fields(s)[path[0]].value, path[1..]))
  }

  lemma MergedFields(d: Value, s: Value)
    requires SameType(d, s) && !d.Scalar?
    ensures var m := MergeUntagged(d, s);
      if |Fields(d)| == |Fields(s)| && Fields(d) != [] then
        && |Fields(m)| == |Fields(d)|
        && forall i :: 0 <= i < |Fields(d)| ==>
             SameType(Fields(d)[i].value, Fields(s)[i].value)
             && Fields(m)[i] == Fields(d)[i].(value := MergeField(Fields(d)[i], Fields(s)[i]))
      else Fields(m) == Fields(d)
  {
  }

  lemma ShapeBelow(v: Value, path: seq<nat>)
    requires path != []
    ensures ShapeAt(v, path) == if path[0] < |Fields(v)| then ShapeAt(Fields(v)[path[0]].value, path[1..]) else Absent
  {
  }

  lemma {:induction false} FieldsOfMerge(d: Value, s: Value, path: seq<nat>)
    requires SameType(d, s)
    ensures ShapeAt(MergeUntagged(d, s), path) == if Reloaded(d, s, path) then ShapeAt(s, path) else ShapeAt(d, path)
    decreases |path|
  {
    if path == [] || d.Scalar? {
      assert Fields(d) == [] || path == [];
    } else {
      MergedFields(d, s);
      ShapeBelow(MergeUntagged(d, s), path);
      ShapeBelow(d, path);
      ShapeBelow(s, path);
      var i := path[0];
      if |Fields(d)| == |Fields(s)| && i < |Fields(d)| {
        var f := Fields(d)[i];
        if f.exported && !f.reloadable {
          FieldsOfMerge(f.value, Fields(s)[i].value, path[1..]);
        }
        hide Fields, ShapeAt, MergeUntagged, SameType;
      } else {
        FieldCounts(d, s);
        hide ShapeAt, MergeUntagged, SameType;
      }
    }
  }

  lemma FieldCounts(d: Value, s: Value)
    requires SameType(d, s)
    ensures Fields(d) == [] || Fields(s) == [] || |Fields(d)| == |Fields(s)|
  {
  }

  // A field is the source's exactly when it lies under a tagged field the walk reaches, at any
  // depth; everything else stays as it was.
  lemma ApplySetsExactlyTheTaggedFields(dst: Value, src: Value, path: seq<nat>)
    requires dst.Struct? && SameType(dst, src)
    ensures ShapeAt(Merge(dst, src), path)
         == if Reloaded(dst, src, path) then ShapeAt(src, path) else ShapeAt(dst, path)
  {
    FieldsOfMerge(dst, src, path);
  }

  // Nothing but its shapes makes up a value of a type, so the law above fixes the result.
  lemma {:induction false} SameShapesAreEqual(a: Value, b: Value)
    requires SameType(a, b) && forall path :: ShapeAt(a, path) == ShapeAt(b, path)
    ensures a == b
    decreases a
  {
    assert ShapeAt(a, []) == ShapeAt(b, []);
    if Fields(a) != [] || Fields(b) != [] {
      FieldCounts(a, b);
      forall i: nat | i < |Fields(a)| && i < |Fields(b)| ensures Fields(a)[i].value == Fields(b)[i].value {
        forall path ensures ShapeAt(Fields(a)[i].value, path) == ShapeAt(Fields(b)[i].value, path) {
          var below := [i] + path;
          assert below[1..] == path;
          ShapeBelow(a, below);
          ShapeBelow(b, below);
          assert ShapeAt(a, below) == ShapeAt(b, below);
        }
        SameShapesAreEqual(Fields(a)[i].value, Fields(b)[i].value);
      }
      assert Fields(a) == Fields(b);
    }
  }

  // ---- Applying twice ------------------------------------------------------------------------------

  lemma {:induction false} MergeHasType(d: Value, s: Value, t: Value)
    requires SameType(d, s) && SameType(d, t) && SameType(s, t)
    ensures SameType(MergeUntagged(d, s), t)
    decreases d
  {
    match d {
      case Struct(fields) =>
        var m := Merge(d, s);
        assert MergeUntagged(d, s) == m;
        forall i | 0 <= i < |fields|
          ensures m.fields[i] == fields[i].(value := MergeField(fields[i], s.fields[i]))
          ensures SameType(m.fields[i].value, t.fields[i].value)
        {
          MergeHasType(fields[i].value, s.fields[i].value, t.fields[i].value);
        }
        assert SameType(m, t);
      case Ptr(Some(target)) =>
        if s.target.Some? && t.target.Some? { MergeHasType(target, s.target.value, t.target.value); }
      case _ =>
    }
  }

  // A second source overrides a first one where, behind untagged pointers, it can: where the live
  // and the first value have the pointer, the second has it too, or the first changed nothing.
  predicate Overrides(d: Value, s: Value, t: Value)
    requires SameType(d, s) && SameType(d, t)
    decreases d
  {
    match d
    case Struct(fields) => forall i | 0 <= i < |fields| ::
      fields[i].exported && !fields[i].reloadable ==> Overrides(fields[i].value, s.fields[i].value, t.fields[i].value)
    case Ptr(Some(target)) =>
      s.target.Some? ==>
        if t.target.Some? then Overrides(target, s.target.value, t.target.value)
        else Merge(target, s.target.value) == target
    case _ => true
  }

  // Applying one source after another is applying the later one alone, exactly when the later
  // one overrides.
  lemma {:induction false} LaterApplyWins(d: Value, s: Value, t: Value)
    requires SameType(d, s) && SameType(d, t) && SameType(s, t)
    ensures SameType(MergeUntagged(d, s), t)
    ensures MergeUntagged(MergeUntagged(d, s), t) == MergeUntagged(d, t) <==> Overrides(d, s, t)
    decreases d
  {
    MergeHasType(d, s, t);
    match d {
      case Struct(fields) =>
        var m := Merge(d, s);
        assert MergeUntagged(d, s) == m && MergeUntagged(m, t) == Merge(m, t) && MergeUntagged(d, t) == Merge(d, t);
        forall i | 0 <= i < |fields|
          ensures Merge(m, t).fields[i].value == Merge(d, t).fields[i].value
             <==> (fields[i].exported && !fields[i].reloadable ==>
               Overrides(fields[i].value, s.fields[i].value, t.fields[i].value))
        {
          assert m.fields[i] == fields[i].(value := MergeField(fields[i], s.fields[i]));
          assert Merge(m, t).fields[i].value == MergeField(m.fields[i], t.fields[i]);
          assert Merge(d, t).fields[i].value == MergeField(fields[i], t.fields[i]);
          LaterApplyWins(fields[i].value, s.fields[i].value, t.fields[i].value);
        }
        SameStructs(Merge(m, t), Merge(d, t));
      case Ptr(Some(target)) =>
        if s.target.Some? && t.target.Some? { LaterApplyWins(target, s.target.value, t.target.value); }
      case _ =>
    }
  }

  lemma SameStructs(a: Value, b: Value)
    requires a.Struct? && b.Struct? && |a.fields| == |b.fields|
    requires forall i :: 0 <= i < |a.fields| ==>
      a.fields[i].exported == b.fields[i].exported && a.fields[i].reloadable == b.fields[i].reloadable
    ensures a == b <==> forall i :: 0 <= i < |a.fields| ==> a.fields[i].value == b.fields[i].value
  {
    if forall i :: 0 <= i < |a.fields| ==> a.fields[i].value == b.fields[i].value {
      assert a.fields == b.fields;
    }
  }

  // Both sources agree on which untagged pointers are nil.
  predicate NilsAgree(s: Value, t: Value)
    requires SameType(s, t)
    decreases s
  {
    match s
    case Struct(fields) => forall i | 0 <= i < |fields| ::
      fields[i].exported && !fields[i].reloadable ==> NilsAgree(fields[i].value, t.fields[i].value)
    case Ptr(None) => t.target.None?
    case Ptr(Some(target)) => t.target.Some? && NilsAgree(target, t.target.value)
    case _ => true
  }

  lemma {:induction false} AgreeingSourcesOverride(d: Value, s: Value, t: Value)
    requires SameType(d, s) && SameType(d, t) && SameType(s, t) && NilsAgree(s, t)
    ensures Overrides(d, s, t)
    decreases d
  {
    match d {
      case Struct(fields) =>
        forall i | 0 <= i < |fields| && fields[i].exported && !fields[i].reloadable
          ensures Overrides(fields[i].value, s.fields[i].value, t.fields[i].value)
        {
          AgreeingSourcesOverride(fields[i].value, s.fields[i].value, t.fields[i].value);
        }
      case Ptr(Some(target)) =>
        if s.target.Some? { AgreeingSourcesOverride(target, s.target.value, t.target.value); }
      case _ =>
    }
  }

  lemma {:induction false} NilsAgreeWithThemselves(s: Value)
    requires SameType(s, s)
    ensures NilsAgree(s, s)
    decreases s
  {
    match s {
      case Struct(fields) =>
        forall i | 0 <= i < |fields| && fields[i].exported && !fields[i].reloadable
          ensures NilsAgree(fields[i].value, fields[i].value)
        {
          NilsAgreeWithThemselves(fields[i].value);
        }
      case Ptr(Some(target)) => NilsAgreeWithThemselves(target);
      case _ =>
    }
  }

  // Applying a source twice is applying it once.
  lemma ApplyIsIdempotent(dst: Value, src: Value)
    requires dst.Struct? && SameType(dst, src) && SameType(src, src)
    ensures SameType(Merge(dst, src), src) && Merge(Merge(dst, src), src) == Merge(dst, src)
  {
    NilsAgreeWithThemselves(src);
    AgreeingSourcesOverride(dst, src, src);
    LaterApplyWins(dst, src, src);
  }
}
