// Where the entries of a difference lie.
module DiffPaths {
  import opened Text
  import opened Json
  import opened Diff

  // Every entry of a difference of the values at `at` lies at or below `at`; an entry of one
  // key or position lies below that key or position.

  ghost predicate AllUnder(at: seq<Segment>, diffs: seq<FieldDiff>) {
    forall i :: 0 <= i < |diffs| ==> at <= diffs[i].at
  }

  lemma {:induction false} ValueDiffUnder(path: string, at: seq<Segment>, from: Json, to: Json)
    ensures AllUnder(at, ValueDiff(path, at, from, to))
    decreases from, 1, 0
  {
    if from != to && from.Obj? && to.Obj? {
      MapDiffUnder(path, at, from, to, UnionKeys(from, to));
    } else if from != to && from.Arr? && to.Arr? {
      SliceDiffUnder(path, at, from, to, 0);
    }
  }

  lemma {:induction false} KeyDiffUnder(path: string, at: seq<Segment>, from: Json, to: Json, k: string)
    requires from.Obj? && to.Obj? && (k in from.fields || k in to.fields)
    ensures AllUnder(at + [Key(k)], KeyDiff(path, at, from, to, k))
    decreases from, 0, 0
  {
    if k in from.fields && k in to.fields {
      ValueDiffUnder(JoinPath(path, k), at + [Key(k)], from.fields[k], to.fields[k]);
    }
  }

  lemma {:induction false} ItemDiffUnder(path: string, at: seq<Segment>, from: Json, to: Json, i: nat)
    requires from.Arr? && to.Arr? && i < MaxLen(from, to)
    ensures AllUnder(at + [Index(i)], ItemDiff(path, at, from, to, i))
    decreases from, 0, 0
  {
    if i < |from.items| && i < |to.items| {
      ValueDiffUnder(IndexPath(path, i), at + [Index(i)], from.items[i], to.items[i]);
    }
  }

  // The child of `at` an entry belongs to is one of the keys or positions walked.
  lemma {:induction false} MapDiffUnder(path: string, at: seq<Segment>, from: Json, to: Json, keys: seq<string>)
    requires from.Obj? && to.Obj? && forall k :: k in keys ==> k in from.fields || k in to.fields
    ensures var ds := MapDiff(path, at, from, to, keys);
      AllUnder(at, ds) && forall i :: 0 <= i < |ds| ==> exists k :: k in keys && at + [Key(k)] <= ds[i].at
    decreases from, 0, |keys| + 1
  {
    if keys != [] {
      KeyDiffUnder(path, at, from, to, keys[0]);
      MapDiffUnder(path, at, from, to, keys[1..]);
      var a, b := KeyDiff(path, at, from, to, keys[0]), MapDiff(path, at, from, to, keys[1..]);
      var ds := MapDiff(path, at, from, to, keys);
      forall i | 0 <= i < |ds| ensures at <= ds[i].at && exists k :: k in keys && at + [Key(k)] <= ds[i].at {
        if i < |a| {
          assert ds[i] == a[i] && at + [Key(keys[0])] <= a[i].at;
        } else {
          assert ds[i] == b[i - |a|];
          var k :| k in keys[1..] && at + [Key(k)] <= b[i - |a|].at;
        }
      }
    }
  }

  lemma {:induction false} SliceDiffUnder(path: string, at: seq<Segment>, from: Json, to: Json, j: nat)
    requires from.Arr? && to.Arr? && j <= MaxLen(from, to)
    ensures var ds := SliceDiff(path, at, from, to, j);
      AllUnder(at, ds) && forall i :: 0 <= i < |ds| ==> exists n: nat :: j <= n && at + [Index(n)] <= ds[i].at
    decreases from, 0, MaxLen(from, to) - j + 1
  {
    if j < MaxLen(from, to) {
      ItemDiffUnder(path, at, from, to, j);
      SliceDiffUnder(path, at, from, to, j + 1);
      var a, b := ItemDiff(path, at, from, to, j), SliceDiff(path, at, from, to, j + 1);
      var ds := SliceDiff(path, at, from, to, j);
      forall i | 0 <= i < |ds| ensures at <= ds[i].at && exists n: nat :: j <= n && at + [Index(n)] <= ds[i].at {
        if i < |a| {
          assert ds[i] == a[i] && at + [Index(j)] <= a[i].at;
        } else {
          assert ds[i] == b[i - |a|];
          var n: nat :| j + 1 <= n && at + [Index(n)] <= b[i - |a|].at;
        }
      }
    }
  }

  // ---- No entry lies at or below another ---------------------------------------------------------

  ghost predicate PrefixFree(diffs: seq<FieldDiff>) {
    forall i, j :: 0 <= i < |diffs| && 0 <= j < |diffs| && i != j ==> !(diffs[i].at <= diffs[j].at)
  }

  lemma DifferentChildren(at: seq<Segment>, s: Segment, t: Segment, x: seq<Segment>, y: seq<Segment>)
    requires s != t && at + [s] <= x && at + [t] <= y
    ensures !(x <= y) && !(y <= x)
  {
    assert x[|at|] == (at + [s])[|at|] == s && y[|at|] == (at + [t])[|at|] == t;
  }

  lemma {:induction false} EntriesArePrefixFree(path: string, at: seq<Segment>, from: Json, to: Json)
    ensures PrefixFree(ValueDiff(path, at, from, to))
    decreases from, 1, 0
  {
    if from != to && from.Obj? && to.Obj? {
      KeysArePrefixFree(path, at, from, to, UnionKeys(from, to));
    } else if from != to && from.Arr? && to.Arr? {
      ItemsArePrefixFree(path, at, from, to, 0);
    }
  }

  lemma {:induction false} KeysArePrefixFree(path: string, at: seq<Segment>, from: Json, to: Json, keys: seq<string>)
    requires from.Obj? && to.Obj? && forall k :: k in keys ==> k in from.fields || k in to.fields
    requires Sorted(keys)
    ensures PrefixFree(MapDiff(path, at, from, to, keys))
    decreases from, 0, |keys|
  {
    if keys != [] {
      var k, rest := keys[0], keys[1..];
      if k in from.fields && k in to.fields {
        EntriesArePrefixFree(JoinPath(path, k), at + [Key(k)], from.fields[k], to.fields[k]);
      }
      KeysArePrefixFree(path, at, from, to, rest);
      KeyDiffUnder(path, at, from, to, k);
      MapDiffUnder(path, at, from, to, rest);
      SortedHasNoDuplicates(keys);
      var a, b := KeyDiff(path, at, from, to, k), MapDiff(path, at, from, to, rest);
      assert PrefixFree(a);
      assert MapDiff(path, at, from, to, keys) == a + b;
      hide Sorted, Less, Precedes, KeyDiff, MapDiff, PrefixFree;
      forall i, j | 0 <= i < |a| && 0 <= j < |b| ensures !(a[i].at <= b[j].at) && !(b[j].at <= a[i].at) {
        var l :| l in rest && at + [Key(l)] <= b[j].at;
        DifferentChildren(at, Key(k), Key(l), a[i].at, b[j].at);
      }
      PrefixFreeConcat(a, b);
    }
  }

  lemma {:induction false} ItemsArePrefixFree(path: string, at: seq<Segment>, from: Json, to: Json, n: nat)
    requires from.Arr? && to.Arr? && n <= MaxLen(from, to)
    ensures PrefixFree(SliceDiff(path, at, from, to, n))
    decreases from, 0, MaxLen(from, to) - n
  {
    if n < MaxLen(from, to) {
      if n < |from.items| && n < |to.items| {
        EntriesArePrefixFree(IndexPath(path, n), at + [Index(n)], from.items[n], to.items[n]);
      }
      ItemsArePrefixFree(path, at, from, to, n + 1);
      ItemDiffUnder(path, at, from, to, n);
      SliceDiffUnder(path, at, from, to, n + 1);
      var a, b := ItemDiff(path, at, from, to, n), SliceDiff(path, at, from, to, n + 1);
      forall i, j | 0 <= i < |a| && 0 <= j < |b| ensures !(a[i].at <= b[j].at) && !(b[j].at <= a[i].at) {
        var m: nat :| n + 1 <= m && at + [Index(m)] <= b[j].at;
        DifferentChildren(at, Index(n), Index(m), a[i].at, b[j].at);
      }
      PrefixFreeConcat(a, b);
    }
  }

  lemma PrefixFreeConcat(a: seq<FieldDiff>, b: seq<FieldDiff>)
    requires PrefixFree(a) && PrefixFree(b)
    requires forall i, j :: 0 <= i < |a| && 0 <= j < |b| ==> !(a[i].at <= b[j].at) && !(b[j].at <= a[i].at)
    ensures PrefixFree(a + b)
  {
  }

  // ---- Rendered paths -----------------------------------------------------------------------------

  function Render(at: seq<Segment>): string {
    if at == [] then "" else ChildPath(Render(at[..|at| - 1]), at[|at| - 1])
  }

  function ChildPath(path: string, s: Segment): string {
    match s case Key(name) => JoinPath(path, name) case Index(i) => IndexPath(path, i)
  }

  // Every entry carries the text of its place. The root is spelled "$", and so can be a place
  // below it whose keys are all empty.
  ghost predicate Rendered(diffs: seq<FieldDiff>) {
    forall i :: 0 <= i < |diffs| ==> Spelled(diffs[i].at, diffs[i].path)
  }

  predicate Spelled(at: seq<Segment>, path: string) {
    if at == [] then path == "$" else path == Render(at) || (Render(at) == "" && path == "$")
  }

  lemma {:induction false} PathsAreRendered(at: seq<Segment>, from: Json, to: Json)
    ensures Rendered(ValueDiff(Render(at), at, from, to))
    decreases from, 1, 0
  {
    if from != to && from.Obj? && to.Obj? {
      KeyPathsAreRendered(at, from, to, UnionKeys(from, to));
    } else if from != to && from.Arr? && to.Arr? {
      ItemPathsAreRendered(at, from, to, 0);
    }
  }

  lemma {:induction false} KeyPathsAreRendered(at: seq<Segment>, from: Json, to: Json, keys: seq<string>)
    requires from.Obj? && to.Obj? && forall k :: k in keys ==> k in from.fields || k in to.fields
    ensures Rendered(MapDiff(Render(at), at, from, to, keys))
    decreases from, 0, |keys|
  {
    if keys != [] {
      var k := keys[0];
      assert (at + [Key(k)])[..|at|] == at;
      assert Render(at + [Key(k)]) == JoinPath(Render(at), k);
      if k in from.fields && k in to.fields {
        PathsAreRendered(at + [Key(k)], from.fields[k], to.fields[k]);
      }
      KeyPathsAreRendered(at, from, to, keys[1..]);
      assert Rendered(KeyDiff(Render(at), at, from, to, k));
    }
  }

  lemma {:induction false} ItemPathsAreRendered(at: seq<Segment>, from: Json, to: Json, i: nat)
    requires from.Arr? && to.Arr? && i <= MaxLen(from, to)
    ensures Rendered(SliceDiff(Render(at), at, from, to, i))
    decreases from, 0, MaxLen(from, to) - i
  {
    if i < MaxLen(from, to) {
      assert (at + [Index(i)])[..|at|] == at;
      assert Render(at + [Index(i)]) == IndexPath(Render(at), i);
      if i < |from.items| && i < |to.items| {
        PathsAreRendered(at + [Index(i)], from.items[i], to.items[i]);
      }
      ItemPathsAreRendered(at, from, to, i + 1);
      assert Rendered(ItemDiff(Render(at), at, from, to, i));
    }
  }

  // ---- Rendered paths are unambiguous for plain keys ------------------------------------------------

  predicate PlainKey(k: string) {
    k != "" && forall c :: c in k ==> c != '.' && c != '['
  }

  predicate PlainKeys(j: Json) {
    match j
    case Arr(items) => forall i | 0 <= i < |items| :: PlainKeys(items[i])
    case Obj(fields) => forall k | k in fields :: PlainKey(k) && PlainKeys(fields[k])
    case _ => true
  }

  ghost predicate PlainAt(at: seq<Segment>) {
    forall i :: 0 <= i < |at| && at[i].Key? ==> PlainKey(at[i].name)
  }

  predicate NoMark(s: string) { forall c :: c in s ==> c != '.' && c != '[' }

  // A text splits at its last '.' or '[' in one way only.
  lemma LastMark(p: string, c: char, s: string, q: string, d: char, t: string)
    requires c in ".[" && d in ".[" && NoMark(s) && NoMark(t)
    requires p + [c] + s == q + [d] + t
    ensures p == q && c == d && s == t
  {
    var l := p + [c] + s;
    assert l[|p|] == c && (q + [d] + t)[|q|] == d;
    assert forall i :: |p| < i < |l| ==> l[i] == s[i - |p| - 1] && l[i] in s;
    assert forall i :: |q| < i < |l| ==> l[i] == t[i - |q| - 1] && l[i] in t;
    assert |p| == |q|;
    assert p == l[..|p|] == q;
    assert s == l[|p| + 1..] == t;
  }

  lemma UnmarkedHasNoMark(s: string, q: string, d: char, t: string)
    requires NoMark(s) && d in ".["
    ensures s != q + [d] + t
  {
    assert (q + [d] + t)[|q|] == d;
    assert d in q + [d] + t;
  }

  // The last step of a place: the mark that introduces it and the text after the mark.
  lemma RenderLast(at: seq<Segment>)
    requires at != [] && PlainAt(at)
    ensures Render(at) != ""
    ensures var init, last := Render(at[..|at| - 1]), at[|at| - 1];
      match last
      case Key(name) => Render(at) == (if init == "" then name else init + "." + name) && NoMark(name)
      case Index(i) => Render(at) == init + "[" + (Itoa(i) + "]") && NoMark(Itoa(i) + "]")
  {
    var init, last := Render(at[..|at| - 1]), at[|at| - 1];
    assert last.Key? ==> PlainKey(last.name);
    assert Render(at) == ChildPath(init, last);
    hide Render, PlainAt, Itoa;
    if last.Index? {
      NumeralHasNoMark(last.i);
      assert init + "[" + Itoa(last.i) + "]" == init + "[" + (Itoa(last.i) + "]");
    }
  }

  lemma NumeralHasNoMark(n: nat)
    ensures NoMark(Itoa(n) + "]")
  {
    hide Itoa;
  }

  lemma {:induction false} RenderIsInjective(a: seq<Segment>, b: seq<Segment>)
    requires PlainAt(a) && PlainAt(b) && Render(a) == Render(b)
    ensures a == b
    decreases |a|
  {
    if a == [] || b == [] {
      if a != [] { RenderLast(a); }
      if b != [] { RenderLast(b); }
    } else {
      RenderLast(a);
      RenderLast(b);
      var s, t := a[|a| - 1], b[|b| - 1];
      var p, q := Render(a[..|a| - 1]), Render(b[..|b| - 1]);
      LastSteps(p, s, q, t, Render(a));
      RenderIsInjective(a[..|a| - 1], b[..|b| - 1]);
      assert a == a[..|a| - 1] + [s] && b == b[..|b| - 1] + [t];
    }
  }

  lemma LastSteps(p: string, s: Segment, q: string, t: Segment, text: string)
    requires s.Key? ==> PlainKey(s.name) && text == JoinPath(p, s.name)
    requires t.Key? ==> PlainKey(t.name) && text == JoinPath(q, t.name)
    requires s.Index? ==> text == p + "[" + (Itoa(s.i) + "]") && NoMark(Itoa(s.i) + "]")
    requires t.Index? ==> text == q + "[" + (Itoa(t.i) + "]") && NoMark(Itoa(t.i) + "]")
    ensures p == q && s == t
  {
    var c, d := if s.Key? then '.' else '[', if t.Key? then '.' else '[';
    var x := if s.Key? then s.name else Itoa(s.i) + "]";
    var y := if t.Key? then t.name else Itoa(t.i) + "]";
    if s.Key? && p == "" {
      if !(t.Key? && q == "") { UnmarkedHasNoMark(text, q, d, y); }
    } else if t.Key? && q == "" {
      UnmarkedHasNoMark(text, p, c, x);
    } else {
      LastMark(p, c, x, q, d, y);
      if s.Index? {
        assert Itoa(s.i) == x[..|x| - 1] == y[..|y| - 1] == Itoa(t.i);
        ItoaIsInjective(s.i, t.i);
      }
    }
  }

  // ---- Entries of parts are entries of the whole --------------------------------------------------

  lemma {:induction false} EntryOfItem(
      path: string, at: seq<Segment>, from: Json, to: Json, n: nat, i: nat, d: FieldDiff)
    requires from.Arr? && to.Arr? && n <= i < MaxLen(from, to) && d in ItemDiff(path, at, from, to, i)
    ensures d in SliceDiff(path, at, from, to, n)
    decreases i - n
  {
    if n < i { EntryOfItem(path, at, from, to, n + 1, i, d); }
  }

  lemma {:induction false} EntryOfKey(
      path: string, at: seq<Segment>, from: Json, to: Json, keys: seq<string>, k: string, d: FieldDiff)
    requires from.Obj? && to.Obj? && forall k :: k in keys ==> k in from.fields || k in to.fields
    requires k in keys && d in KeyDiff(path, at, from, to, k)
    ensures d in MapDiff(path, at, from, to, keys)
  {
    if k != keys[0] { EntryOfKey(path, at, from, to, keys[1..], k, d); }
  }
}
