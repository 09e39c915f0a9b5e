// A difference read as a patch: applying its entries to the old payload, in any order, yields
// the new payload. Arrays are kept as positions with holes while entries are applied, because
// the order of the entries (the text order of their paths puts `items[10]` before `items[2]`)
// may fill position 10 before position 2.
module Patch {
  import opened Text
  import opened Json
  import opened Wrappers
  import opened Diff
  import opened DiffLaws
  import opened DiffPaths

  datatype Tree = Leaf(value: Json) | Node(isArray: bool, children: map<Segment, Tree>)

  // The keys or positions of a container.
  function Places(j: Json): set<Segment> {
    match j
    case Arr(items) => set i: nat | 0 <= i < |items| :: Index(i)
    case Obj(fields) => set k | k in fields :: Key(k)
    case _ => {}
  }

  function At(j: Json, s: Segment): (child: Json)
    requires s in Places(j)
    ensures child < j
  {
    match j
    case Arr(items) => items[s.i]
    case Obj(fields) => fields[s.name]
  }

  function Embed(j: Json): Tree {
    if j.Arr? || j.Obj? then Node(j.Arr?, map s | s in Places(j) :: Embed(At(j, s))) else Leaf(j)
  }

  function Child(children: map<Segment, Tree>, s: Segment): Option<Tree> {
    if s in children then Some(children[s]) else None
  }

  function WithChild(children: map<Segment, Tree>, s: Segment, t: Option<Tree>): map<Segment, Tree> {
    if t.Some? then children[s := t.value] else children - {s}
  }

  // Puts t at a place below a (possibly absent) tree. A place under a missing or scalar
  // parent does not exist, and nothing happens.
  function PutAt(tree: Option<Tree>, at: seq<Segment>, t: Option<Tree>): Option<Tree>
    decreases |at|
  {
    if at == [] then t
    else if tree.None? || tree.value.Leaf? then tree
    else
      var children := tree.value.children;
      Some(Node(tree.value.isArray, WithChild(children, at[0], PutAt(Child(children, at[0]), at[1..], t))))
  }

  // A removed entry takes the place away, any other entry writes its new value.
  function Effect(d: FieldDiff): Option<Tree> {
    if d.op == Removed then None else Some(Embed(d.newValue))
  }

  ghost predicate Below(diffs: seq<FieldDiff>, n: nat) {
    forall i :: 0 <= i < |diffs| ==> |diffs[i].at| >= n
  }

  // Applies entries, in the order given, to the tree that stands at depth n.
  function ApplyFrom(n: nat, tree: Option<Tree>, diffs: seq<FieldDiff>): Option<Tree>
    requires Below(diffs, n)
    decreases |diffs|
  {
    if diffs == [] then tree
    else ApplyFrom(n, PutAt(tree, diffs[0].at[n..], Effect(diffs[0])), diffs[1..])
  }

  function Apply(payload: Json, diffs: seq<FieldDiff>): Option<Tree> {
    ApplyFrom(0, Some(Embed(payload)), diffs)
  }

  lemma {:induction false} EmbedIsInjective(a: Json, b: Json)
    requires Embed(a) == Embed(b)
    ensures a == b
    decreases a
  {
    if a.Arr? || a.Obj? {
      assert Places(a) == Embed(a).children.Keys == Embed(b).children.Keys == Places(b);
      forall s | s in Places(a) ensures At(a, s) == At(b, s) {
        assert Embed(At(a, s)) == Embed(a).children[s] == Embed(b).children[s] == Embed(At(b, s));
        EmbedIsInjective(At(a, s), At(b, s));
      }
      SamePlaces(a, b);
    }
  }

  lemma SamePlaces(a: Json, b: Json)
    requires (a.Arr? && b.Arr?) || (a.Obj? && b.Obj?)
    requires Places(a) == Places(b) && forall s :: s in Places(a) ==> At(a, s) == At(b, s)
    ensures a == b
  {
    if a.Arr? {
      assert Index(|a.items|) !in Places(a) && Index(|b.items|) !in Places(b);
      assert |a.items| == |b.items|;
      forall i | 0 <= i < |a.items| ensures a.items[i] == b.items[i] {
        assert At(a, Index(i)) == At(b, Index(i));
      }
      assert a.items == b.items;
    } else {
      forall k ensures k in a.fields <==> Key(k) in Places(a) {}
      forall k ensures k in b.fields <==> Key(k) in Places(b) {}
      assert a.fields.Keys == b.fields.Keys;
      forall k | k in a.fields ensures a.fields[k] == b.fields[k] {
        assert At(a, Key(k)) == At(b, Key(k));
      }
      assert a.fields == b.fields;
    }
  }

  // ---- Entries under one child --------------------------------------------------------

  function Select(n: nat, s: Segment, diffs: seq<FieldDiff>): (out: seq<FieldDiff>)
    requires Below(diffs, n + 1)
    ensures Below(out, n + 1)
    ensures forall d :: d in out ==> d.at[n] == s
  {
    if diffs == [] then []
    else (if diffs[0].at[n] == s then [diffs[0]] else []) + Select(n, s, diffs[1..])
  }

  // The children after one entry.
  function Moved(n: nat, children: map<Segment, Tree>, d: FieldDiff): map<Segment, Tree>
    requires |d.at| > n
  {
    WithChild(children, d.at[n], PutAt(Child(children, d.at[n]), d.at[n + 1..], Effect(d)))
  }

  // Entries below a node act on each child separately, so only their order per child matters.
  lemma {:induction false} ApplyPerChild(n: nat, isArray: bool, children: map<Segment, Tree>, diffs: seq<FieldDiff>)
    requires Below(diffs, n + 1)
    ensures var r := ApplyFrom(n, Some(Node(isArray, children)), diffs);
      && r.Some? && r.value.Node? && r.value.isArray == isArray
      && forall s :: Child(r.value.children, s) == ApplyFrom(n + 1, Child(children, s), Select(n, s, diffs))
    decreases |diffs|
  {
    if diffs != [] {
      var next := Moved(n, children, diffs[0]);
      PutAtChild(n, isArray, children, diffs[0]);
      ApplyPerChild(n, isArray, next, diffs[1..]);
      forall s
        ensures ApplyFrom(n + 1, Child(next, s), Select(n, s, diffs[1..]))
             == ApplyFrom(n + 1, Child(children, s), Select(n, s, diffs))
      {
        SelectFirst(n, s, children, diffs);
      }
      hide Moved, PutAt, Select, Child;
    }
  }

  lemma PutAtChild(n: nat, isArray: bool, children: map<Segment, Tree>, d: FieldDiff)
    requires |d.at| > n
    ensures PutAt(Some(Node(isArray, children)), d.at[n..], Effect(d)) == Some(Node(isArray, Moved(n, children, d)))
  {
    hide Effect;
    assert d.at[n..][0] == d.at[n] && d.at[n..][1..] == d.at[n + 1..];
  }

  // The first entry acts on its own child only.
  lemma SelectFirst(n: nat, s: Segment, children: map<Segment, Tree>, diffs: seq<FieldDiff>)
    requires diffs != [] && Below(diffs, n + 1)
    ensures ApplyFrom(n + 1, Child(children, s), Select(n, s, diffs))
         == ApplyFrom(n + 1, Child(Moved(n, children, diffs[0]), s), Select(n, s, diffs[1..]))
  {
    var d, rest := diffs[0], Select(n, s, diffs[1..]);
    MovedChild(n, children, d, s);
    if s == d.at[n] {
      assert Select(n, s, diffs) == [d] + rest;
      hide Moved, PutAt, Child, Effect, Select;
      ApplyFirst(n + 1, Child(children, s), d, rest);
    } else {
      assert Select(n, s, diffs) == rest;
      hide Moved, PutAt, Child, Effect;
    }
  }

  lemma MovedChild(n: nat, children: map<Segment, Tree>, d: FieldDiff, s: Segment)
    requires |d.at| > n
    ensures Child(Moved(n, children, d), s)
         == if s == d.at[n] then PutAt(Child(children, s), d.at[n + 1..], Effect(d)) else Child(children, s)
  {
    hide PutAt, Effect;
  }

  lemma ApplyFirst(n: nat, tree: Option<Tree>, d: FieldDiff, rest: seq<FieldDiff>)
    requires |d.at| >= n && Below([d] + rest, n) && Below(rest, n)
    ensures ApplyFrom(n, tree, [d] + rest) == ApplyFrom(n, PutAt(tree, d.at[n..], Effect(d)), rest)
  {
    hide Effect, PutAt;
    assert ([d] + rest)[0] == d && ([d] + rest)[1..] == rest;
  }

  lemma {:induction false} SelectConcat(n: nat, s: Segment, a: seq<FieldDiff>, b: seq<FieldDiff>)
    requires Below(a, n + 1) && Below(b, n + 1)
    ensures Below(a + b, n + 1)
    ensures Select(n, s, a + b) == Select(n, s, a) + Select(n, s, b)
    decreases |a|
  {
    if a == [] {
      assert a + b == b;
    } else {
      assert (a + b)[0] == a[0] && (a + b)[1..] == a[1..] + b;
      SelectConcat(n, s, a[1..], b);
      Regroup(if a[0].at[n] == s then [a[0]] else [], Select(n, s, a[1..]), Select(n, s, b));
    }
  }

  lemma {:induction false} SelectAllOrNone(n: nat, s: Segment, u: Segment, diffs: seq<FieldDiff>)
    requires Below(diffs, n + 1) && forall d :: d in diffs ==> d.at[n] == u
    ensures Select(n, s, diffs) == if s == u then diffs else []
    decreases |diffs|
  {
    if diffs != [] { SelectAllOrNone(n, s, u, diffs[1..]); }
  }

  lemma {:induction false} SelectCount(n: nat, s: Segment, a: seq<FieldDiff>, d: FieldDiff)
    requires Below(a, n + 1)
    ensures multiset(Select(n, s, a))[d] == if |d.at| > n && d.at[n] == s then multiset(a)[d] else 0
    decreases |a|
  {
    if a != [] {
      var x, rest := a[0], a[1..];
      SelectCount(n, s, rest, d);
      assert a == [x] + rest;
      if x.at[n] == s {
        assert Select(n, s, a) == [x] + Select(n, s, rest);
      } else {
        assert Select(n, s, a) == Select(n, s, rest);
      }
    }
  }

  // Reordering entries reorders the entries of each child.
  lemma SelectPermutation(n: nat, s: Segment, a: seq<FieldDiff>, b: seq<FieldDiff>)
    requires Below(a, n + 1) && Below(b, n + 1) && multiset(a) == multiset(b)
    ensures multiset(Select(n, s, a)) == multiset(Select(n, s, b))
  {
    forall d ensures multiset(Select(n, s, a))[d] == multiset(Select(n, s, b))[d] {
      SelectCount(n, s, a, d);
      SelectCount(n, s, b, d);
    }
  }

  // ---- The entries of one place --------------------------------------------------------------

  ghost predicate SameKind(from: Json, to: Json) {
    (from.Obj? && to.Obj?) || (from.Arr? && to.Arr?)
  }

  // What the difference of two containers says about one place.
  function PlaceDiff(path: string, at: seq<Segment>, from: Json, to: Json, s: Segment): seq<FieldDiff>
    requires SameKind(from, to)
  {
    if s !in Places(from) + Places(to) then []
    else if s.Key? then KeyDiff(path, at, from, to, s.name)
    else ItemDiff(path, at, from, to, s.i)
  }

  // Entries of one child, followed by entries of others.
  lemma SelectHead(n: nat, s: Segment, u: Segment, a: seq<FieldDiff>, b: seq<FieldDiff>)
    requires Below(a, n + 1) && Below(b, n + 1) && forall d :: d in a ==> d.at[n] == u
    ensures Below(a + b, n + 1)
    ensures s != u ==> Select(n, s, a + b) == Select(n, s, b)
    ensures s == u && Select(n, s, b) == [] ==> Select(n, s, a + b) == a
  {
    SelectAllOrNone(n, s, u, a);
    SelectConcat(n, s, a, b);
    hide *;
  }

  lemma {:induction false} SelectKey(
      path: string, at: seq<Segment>, from: Json, to: Json, keys: seq<string>, s: Segment)
    requires from.Obj? && to.Obj? && Sorted(keys) && forall k :: k in keys ==> k in from.fields || k in to.fields
    ensures Below(MapDiff(path, at, from, to, keys), |at| + 1)
    ensures Select(|at|, s, MapDiff(path, at, from, to, keys))
         == if s.Key? && s.name in keys then KeyDiff(path, at, from, to, s.name) else []
    decreases |keys|
  {
    if keys != [] {
      var k, rest := keys[0], keys[1..];
      SortedTail(keys);
      FirstKey(path, at, from, to, keys);
      hide *;
      SelectKey(path, at, from, to, rest, s);
      SelectHead(|at|, s, Key(k), KeyDiff(path, at, from, to, k), MapDiff(path, at, from, to, rest));
    }
  }

  lemma FirstKey(path: string, at: seq<Segment>, from: Json, to: Json, keys: seq<string>)
    requires from.Obj? && to.Obj? && keys != [] && forall k :: k in keys ==> k in from.fields || k in to.fields
    ensures var a := KeyDiff(path, at, from, to, keys[0]);
      && MapDiff(path, at, from, to, keys) == a + MapDiff(path, at, from, to, keys[1..])
      && Below(a, |at| + 1) && forall d :: d in a ==> d.at[|at|] == Key(keys[0])
  {
    KeyDiffUnder(path, at, from, to, keys[0]);
    hide KeyDiff;
    UnderIsBelow(at, Key(keys[0]), KeyDiff(path, at, from, to, keys[0]));
  }

  lemma UnderIsBelow(at: seq<Segment>, s: Segment, diffs: seq<FieldDiff>)
    requires AllUnder(at + [s], diffs)
    ensures Below(diffs, |at| + 1) && forall d :: d in diffs ==> d.at[|at|] == s
  {
    forall d | d in diffs ensures |d.at| > |at| && d.at[|at|] == s {
      assert at + [s] <= d.at && (at + [s])[|at|] == s;
    }
  }

  // What the items from i on say about one place.
  function ItemsAt(path: string, at: seq<Segment>, from: Json, to: Json, i: nat, s: Segment): seq<FieldDiff>
    requires from.Arr? && to.Arr?
  {
    if s.Index? && i <= s.i < MaxLen(from, to) then ItemDiff(path, at, from, to, s.i) else []
  }

  lemma ItemsAtNext(path: string, at: seq<Segment>, from: Json, to: Json, i: nat, s: Segment)
    requires from.Arr? && to.Arr? && i < MaxLen(from, to)
    ensures ItemsAt(path, at, from, to, i, s)
         == if s == Index(i) then ItemDiff(path, at, from, to, i) else ItemsAt(path, at, from, to, i + 1, s)
    ensures s == Index(i) ==> ItemsAt(path, at, from, to, i + 1, s) == []
  {
    hide ItemDiff;
  }

  lemma NoItems(path: string, at: seq<Segment>, from: Json, to: Json, s: Segment)
    requires from.Arr? && to.Arr?
    ensures var n := MaxLen(from, to); var ds := SliceDiff(path, at, from, to, n);
      Below(ds, |at| + 1) && Select(|at|, s, ds) == [] == ItemsAt(path, at, from, to, n, s)
  {
    assert SliceDiff(path, at, from, to, MaxLen(from, to)) == [];
    hide ItemDiff, SliceDiff;
  }

  lemma {:induction false} SelectItem(path: string, at: seq<Segment>, from: Json, to: Json, i: nat, s: Segment)
    requires from.Arr? && to.Arr? && i <= MaxLen(from, to)
    ensures Below(SliceDiff(path, at, from, to, i), |at| + 1)
    ensures Select(|at|, s, SliceDiff(path, at, from, to, i)) == ItemsAt(path, at, from, to, i, s)
    decreases MaxLen(from, to) - i
  {
    hide *;
    if i < MaxLen(from, to) {
      FirstItem(path, at, from, to, i);
      SelectItem(path, at, from, to, i + 1, s);
      NextItem(|at|, s, i, ItemDiff(path, at, from, to, i), SliceDiff(path, at, from, to, i + 1));
      ItemsAtNext(path, at, from, to, i, s);
    } else {
      NoItems(path, at, from, to, s);
    }
  }

  lemma FirstItem(path: string, at: seq<Segment>, from: Json, to: Json, i: nat)
    requires from.Arr? && to.Arr? && i < MaxLen(from, to)
    ensures var a := ItemDiff(path, at, from, to, i);
      && SliceDiff(path, at, from, to, i) == a + SliceDiff(path, at, from, to, i + 1)
      && Below(a, |at| + 1) && forall d :: d in a ==> d.at[|at|] == Index(i)
  {
    ItemDiffUnder(path, at, from, to, i);
    hide ItemDiff;
    UnderIsBelow(at, Index(i), ItemDiff(path, at, from, to, i));
  }

  // Entries of item i, followed by those of later items.
  lemma NextItem(n: nat, s: Segment, i: nat, a: seq<FieldDiff>, b: seq<FieldDiff>)
    requires Below(a, n + 1) && Below(b, n + 1) && forall d :: d in a ==> d.at[n] == Index(i)
    ensures Below(a + b, n + 1)
    ensures s != Index(i) ==> Select(n, s, a + b) == Select(n, s, b)
    ensures s == Index(i) && Select(n, s, b) == [] ==> Select(n, s, a + b) == a
  {
    hide *;
    SelectHead(n, s, Index(i), a, b);
  }

  lemma PlacesOfContainers(from: Json, to: Json, s: Segment)
    requires SameKind(from, to)
    ensures s in Places(from) + Places(to) <==>
      if from.Obj? then s.Key? && (s.name in from.fields || s.name in to.fields)
      else s.Index? && s.i < MaxLen(from, to)
  {
  }

  lemma SelectPlace(path: string, at: seq<Segment>, from: Json, to: Json, s: Segment)
    requires SameKind(from, to) && from != to
    ensures Below(ValueDiff(path, at, from, to), |at| + 1)
    ensures Select(|at|, s, ValueDiff(path, at, from, to)) == PlaceDiff(path, at, from, to, s)
  {
    hide Less, Precedes, Sorted;
    PlacesOfContainers(from, to, s);
    if from.Obj? {
      SelectKey(path, at, from, to, UnionKeys(from, to), s);
    } else {
      SelectItem(path, at, from, to, 0, s);
    }
  }

  // ---- Losslessness ---------------------------------------------------------------------------

  // No value that is present on both sides goes from something to null.
  predicate NothingBecomesNull(from: Json, to: Json)
    decreases from
  {
    if from == to then true
    else if from.Obj? && to.Obj? then
      forall k | k in from.fields && k in to.fields :: NothingBecomesNull(from.fields[k], to.fields[k])
    else if from.Arr? && to.Arr? then
      forall i | 0 <= i < |from.items| && i < |to.items| :: NothingBecomesNull(from.items[i], to.items[i])
    else to != Null
  }

  // The entries of a difference, in any order, turn the old value into the new one exactly
  // when nothing becomes null.
  lemma {:induction false} ApplyDiffAt(path: string, at: seq<Segment>, from: Json, to: Json, order: seq<FieldDiff>)
    requires multiset(order) == multiset(ValueDiff(path, at, from, to))
    ensures Below(order, |at|)
    ensures ApplyFrom(|at|, Some(Embed(from)), order) == Some(Embed(to)) <==> NothingBecomesNull(from, to)
    decreases from, 1
  {
    ValueDiffUnder(path, at, from, to);
    PermutationBelow(order, ValueDiff(path, at, from, to), |at|);
    if from == to {
      ApplyNothing(path, at, from, order);
    } else if SameKind(from, to) {
      hide *;
      ApplyContainerDiff(path, at, from, to, order);
    } else {
      ApplyScalarDiff(path, at, from, to, order);
    }
  }

  lemma ApplyNothing(path: string, at: seq<Segment>, json: Json, order: seq<FieldDiff>)
    requires multiset(order) == multiset(ValueDiff(path, at, json, json)) && Below(order, |at|)
    ensures ApplyFrom(|at|, Some(Embed(json)), order) == Some(Embed(json)) && NothingBecomesNull(json, json)
  {
    assert |multiset(order)| == 0;
    assert order == [];
    hide Embed, Below;
  }

  lemma ApplyScalarDiff(path: string, at: seq<Segment>, from: Json, to: Json, order: seq<FieldDiff>)
    requires multiset(order) == multiset(ValueDiff(path, at, from, to)) && Below(order, |at|)
    requires from != to && !SameKind(from, to)
    ensures ApplyFrom(|at|, Some(Embed(from)), order) == Some(Embed(to)) <==> NothingBecomesNull(from, to)
  {
    var d := FieldDiff(at, PathOrRoot(path), from, to, OpFor(from, to));
    assert ValueDiff(path, at, from, to) == [d];
    Singleton(order, d);
    ApplyOne(|at|, Some(Embed(from)), d);
    hide ApplyFrom, Below, ValueDiff;
  }

  lemma PermutationBelow(a: seq<FieldDiff>, b: seq<FieldDiff>, n: nat)
    requires multiset(a) == multiset(b) && Below(b, n)
    ensures Below(a, n)
  {
    forall i | 0 <= i < |a| ensures |a[i].at| >= n {
      assert a[i] in multiset(a);
      assert a[i] in b;
    }
  }

  lemma Singleton<T>(s: seq<T>, x: T)
    requires multiset(s) == multiset([x])
    ensures s == [x]
  {
    assert |multiset(s)| == 1;
    assert s[0] in multiset(s);
  }

  // What stands at a place of a container, if anything.
  ghost function Branch(j: Json, s: Segment): Option<Tree> {
    if s in Places(j) then Some(Embed(At(j, s))) else None
  }

  // Nothing becomes null at a place that both sides have.
  ghost predicate KeepsPlace(from: Json, to: Json, s: Segment) {
    s in Places(from) && s in Places(to) ==> NothingBecomesNull(At(from, s), At(to, s))
  }

  lemma ChildOfEmbed(j: Json, s: Segment)
    requires j.Obj? || j.Arr?
    ensures Embed(j).Node? && Child(Embed(j).children, s) == Branch(j, s)
  {
  }

  lemma SharedPlace(path: string, at: seq<Segment>, from: Json, to: Json, s: Segment)
    requires SameKind(from, to) && s in Places(from) && s in Places(to)
    ensures PlaceDiff(path, at, from, to, s)
         == ValueDiff(ChildPath(path, s), at + [s], At(from, s), At(to, s))
  {
    hide ValueDiff, JoinPath, IndexPath;
  }

  // A place that only one side has: one entry, right there.
  lemma LonePlace(path: string, at: seq<Segment>, from: Json, to: Json, s: Segment)
    requires SameKind(from, to) && s in Places(from) + Places(to) && !(s in Places(from) && s in Places(to))
    ensures var ds := PlaceDiff(path, at, from, to, s);
      |ds| == 1 && ds[0].at == at + [s] && Effect(ds[0]) == if s in Places(to) then Some(Embed(At(to, s))) else None
  {
    hide Embed;
  }

  lemma ApplyOne(n: nat, tree: Option<Tree>, d: FieldDiff)
    requires |d.at| == n
    ensures Below([d], n) && ApplyFrom(n, tree, [d]) == Effect(d)
  {
    assert d.at[n..] == [] && [d][1..] == [];
    hide Effect;
  }

  // One place of two containers that both have it or not.
  lemma {:induction false} ApplyPlaceDiff(
      path: string, at: seq<Segment>, from: Json, to: Json, s: Segment, order: seq<FieldDiff>)
    requires SameKind(from, to) && multiset(order) == multiset(PlaceDiff(path, at, from, to, s))
    ensures Below(order, |at| + 1)
    ensures ApplyFrom(|at| + 1, Branch(from, s), order) == Branch(to, s) <==> KeepsPlace(from, to, s)
    decreases from, 0, 1
  {
    if s in Places(from) && s in Places(to) {
      ApplySharedPlace(path, at, from, to, s, order);
    } else if s in Places(from) + Places(to) {
      ApplyLonePlace(path, at, from, to, s, order);
    } else {
      hide Embed, Places;
      assert |multiset(order)| == 0;
    }
  }

  lemma {:induction false} ApplySharedPlace(
      path: string, at: seq<Segment>, from: Json, to: Json, s: Segment, order: seq<FieldDiff>)
    requires SameKind(from, to) && multiset(order) == multiset(PlaceDiff(path, at, from, to, s))
    requires s in Places(from) && s in Places(to)
    ensures Below(order, |at| + 1)
    ensures ApplyFrom(|at| + 1, Branch(from, s), order) == Branch(to, s) <==> KeepsPlace(from, to, s)
    decreases from, 0, 0
  {
    hide Embed, NothingBecomesNull, ValueDiff, PlaceDiff, ApplyFrom, Places, SameKind, Below;
    SharedPlace(path, at, from, to, s);
    ApplyDiffAt(ChildPath(path, s), at + [s], At(from, s), At(to, s), order);
  }

  lemma ApplyLonePlace(path: string, at: seq<Segment>, from: Json, to: Json, s: Segment, order: seq<FieldDiff>)
    requires SameKind(from, to) && multiset(order) == multiset(PlaceDiff(path, at, from, to, s))
    requires s in Places(from) + Places(to) && !(s in Places(from) && s in Places(to))
    ensures Below(order, |at| + 1)
    ensures ApplyFrom(|at| + 1, Branch(from, s), order) == Branch(to, s) && KeepsPlace(from, to, s)
  {
    LonePlace(path, at, from, to, s);
    var ds := PlaceDiff(path, at, from, to, s);
    assert Branch(to, s) == if s in Places(to) then Some(Embed(At(to, s))) else None;
    assert KeepsPlace(from, to, s);
    hide *;
    assert ds == [ds[0]];
    Singleton(order, ds[0]);
    ApplyOne(|at| + 1, Branch(from, s), ds[0]);
  }

  lemma {:induction false} ApplyContainerDiff(
      path: string, at: seq<Segment>, from: Json, to: Json, order: seq<FieldDiff>)
    requires SameKind(from, to) && from != to
    requires multiset(order) == multiset(ValueDiff(path, at, from, to)) && Below(order, |at|)
    ensures ApplyFrom(|at|, Some(Embed(from)), order) == Some(Embed(to)) <==> NothingBecomesNull(from, to)
    decreases from, 0, 2
  {
    var n, diffs := |at|, ValueDiff(path, at, from, to);
    SelectPlace(path, at, from, to, Index(0));
    PermutationBelow(order, diffs, n + 1);
    hide ValueDiff, PlaceDiff, NothingBecomesNull, Select;
    ApplyPerChild(n, from.Arr?, Embed(from).children, order);
    var r := ApplyFrom(n, Some(Embed(from)), order).value.children;
    forall s ensures Child(r, s) == Child(Embed(to).children, s) <==> KeepsPlace(from, to, s) {
      SelectPlace(path, at, from, to, s);
      SelectPermutation(n, s, order, diffs);
      ChildOfEmbed(from, s);
      ChildOfEmbed(to, s);
      hide Embed, Branch, KeepsPlace;
      ApplyPlaceDiff(path, at, from, to, s, Select(n, s, order));
    }
    SameChildren(r, Embed(to).children);
    NothingBecomesNullPerPlace(from, to);
  }

  lemma SameChildren(a: map<Segment, Tree>, b: map<Segment, Tree>)
    ensures a == b <==> forall s :: Child(a, s) == Child(b, s)
  {
    if forall s :: Child(a, s) == Child(b, s) {
      forall s ensures s in a <==> s in b { assert Child(a, s) == Child(b, s); }
      forall s | s in a ensures a[s] == b[s] { assert Child(a, s) == Child(b, s); }
    }
  }

  lemma NothingBecomesNullPerPlace(from: Json, to: Json)
    requires SameKind(from, to) && from != to
    ensures NothingBecomesNull(from, to)
       <==> forall s :: KeepsPlace(from, to, s)
  {
    if from.Obj? {
      if forall s :: KeepsPlace(from, to, s) {
        forall k | k in from.fields && k in to.fields ensures NothingBecomesNull(from.fields[k], to.fields[k]) {
          assert KeepsPlace(from, to, Key(k)) && Key(k) in Places(from) && Key(k) in Places(to);
        }
      }
    } else {
      if forall s :: KeepsPlace(from, to, s) {
        forall i | 0 <= i < |from.items| && i < |to.items| ensures NothingBecomesNull(from.items[i], to.items[i]) {
          assert KeepsPlace(from, to, Index(i)) && Index(i) in Places(from) && Index(i) in Places(to);
        }
      }
    }
  }

  // The result of DiffPayloads, which is some order of the entries, is a lossless patch.
  lemma DiffIsLosslessInAnyOrder(from: Json, to: Json, order: seq<FieldDiff>)
    requires multiset(order) == multiset(ValueDiff("", [], from, to))
    ensures Apply(from, order) == Some(Embed(to)) <==> NothingBecomesNull(from, to)
  {
    ApplyDiffAt("", [], from, to, order);
  }

  predicate NullFree(j: Json) {
    match j
    case Null => false
    case Arr(items) => forall i | 0 <= i < |items| :: NullFree(items[i])
    case Obj(fields) => forall k | k in fields :: NullFree(fields[k])
    case _ => true
  }

  lemma {:induction false} NullFreeTargetIsReached(from: Json, to: Json, order: seq<FieldDiff>)
    requires NullFree(to) && multiset(order) == multiset(ValueDiff("", [], from, to))
    ensures Apply(from, order) == Some(Embed(to))
  {
    NullFreeMeansNothingBecomesNull(from, to);
    DiffIsLosslessInAnyOrder(from, to, order);
  }

  lemma {:induction false} NullFreeMeansNothingBecomesNull(from: Json, to: Json)
    requires NullFree(to)
    ensures NothingBecomesNull(from, to)
    decreases from
  {
    if from != to && from.Obj? && to.Obj? {
      forall k | k in from.fields && k in to.fields ensures NothingBecomesNull(from.fields[k], to.fields[k]) {
        NullFreeMeansNothingBecomesNull(from.fields[k], to.fields[k]);
      }
    } else if from != to && from.Arr? && to.Arr? {
      forall i | 0 <= i < |from.items| && i < |to.items| ensures NothingBecomesNull(from.items[i], to.items[i]) {
        NullFreeMeansNothingBecomesNull(from.items[i], to.items[i]);
      }
    }
  }

  // ---- Undoing ----------------------------------------------------------------------------------

  lemma SwapTwice(d: FieldDiff)
    ensures Swap(Swap(d)) == d
  {
  }

  lemma {:induction false} SwapCount(diffs: seq<FieldDiff>, d: FieldDiff)
    ensures multiset(SwapAll(diffs))[d] == multiset(diffs)[Swap(d)]
    decreases |diffs|
  {
    if diffs != [] {
      var first, rest := diffs[0], diffs[1..];
      assert SwapAll(diffs) == [Swap(first)] + SwapAll(rest);
      SwapTwice(d);
      SwapTwice(first);
      SwapCount(rest, d);
      hide Swap, SwapAll;
      assert diffs == [first] + rest;
      assert multiset(diffs)[Swap(d)] == multiset(rest)[Swap(d)] + if first == Swap(d) then 1 else 0;
      assert Swap(first) == d <==> first == Swap(d);
    }
  }

  // The swapped entries, in any order, lead back.
  lemma SwappedEntriesUndo(from: Json, to: Json, order: seq<FieldDiff>)
    requires multiset(order) == multiset(ValueDiff("", [], from, to))
    ensures Apply(to, SwapAll(order)) == Some(Embed(from)) <==> NothingBecomesNull(to, from)
  {
    var diffs := ValueDiff("", [], from, to);
    SwappingArguments("", [], from, to);
    forall d ensures multiset(SwapAll(order))[d] == multiset(SwapAll(diffs))[d] {
      SwapCount(order, d);
      SwapCount(diffs, d);
    }
    assert multiset(SwapAll(order)) == multiset(SwapAll(diffs));
    DiffIsLosslessInAnyOrder(to, from, SwapAll(order));
  }
}
