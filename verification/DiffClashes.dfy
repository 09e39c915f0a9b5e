// When two entries of a difference report one path (timetravel/diff.go): exactly when, somewhere in
// the documents, one key reads like a place below its sibling.
module DiffClashes {
  import opened Text
  import opened Numbers
  import opened Json
  import opened Diff
  import opened DiffPaths

  // ---- The text of further steps -----------------------------------------------------------------

  function StepText(s: Segment): string {
    match s case Key(name) => "." + name case Index(i) => "[" + Itoa(i) + "]"
  }

  // What steps below a place add to its text.
  function Rest(steps: seq<Segment>): string {
    if steps == [] then "" else StepText(steps[0]) + Rest(steps[1..])
  }

  lemma {:induction false} RenderRest(at: seq<Segment>, steps: seq<Segment>)
    requires Render(at) != ""
    ensures Render(at + steps) == Render(at) + Rest(steps)
    decreases |steps|
  {
    hide Render, StepText;
    if steps == [] {
      assert at + steps == at;
    } else {
      assert at + steps == at + [steps[0]] + steps[1..];
      RenderStep(at, steps[0]);
      RenderRest(at + [steps[0]], steps[1..]);
      JoinedText(Render(at), StepText(steps[0]), Rest(steps[1..]));
    }
  }

  lemma RenderStep(at: seq<Segment>, s: Segment)
    requires Render(at) != ""
    ensures Render(at + [s]) == Render(at) + StepText(s) != ""
  {
    var below := at + [s];
    assert below[..|at|] == at;
    assert Render(below) == ChildPath(Render(at), s);
    hide Render, Itoa, ChildPath;
    FurtherStep(Render(at), s);
    assert StepText(s) != "";
  }

  lemma JoinedText(a: string, b: string, c: string)
    ensures a + b + c == a + (b + c)
  {
  }

  // The whole path of a place: its first key or position, and what its further steps add. Empty keys
  // at the beginning leave nothing.
  function Spell(at: seq<Segment>): string {
    if at == [] then ""
    else match at[0]
      case Key(name) => if name == "" then Spell(at[1..]) else name + Rest(at[1..])
      case Index(i) => "[" + Itoa(i) + "]" + Rest(at[1..])
  }

  lemma {:induction false} RestAppend(steps: seq<Segment>, s: Segment)
    ensures Rest(steps + [s]) == Rest(steps) + StepText(s)
    decreases |steps|
  {
    hide StepText;
    if steps == [] {
      assert [] + [s] == [s] && [s][1..] == [];
    } else {
      assert (steps + [s])[1..] == steps[1..] + [s];
      RestAppend(steps[1..], s);
    }
  }

  lemma {:induction false} SpellAppend(at: seq<Segment>, s: Segment)
    ensures Spell(at + [s]) == ChildPath(Spell(at), s)
    decreases |at|
  {
    if at == [] {
      assert [] + [s] == [s] && [s][1..] == [];
    } else {
      assert (at + [s])[1..] == at[1..] + [s];
      if at[0] == Key("") {
        SpellAppend(at[1..], s);
      } else {
        RestAppend(at[1..], s);
        var first := if at[0].Key? then at[0].name else "[" + Itoa(at[0].i) + "]";
        assert Spell(at) == first + Rest(at[1..]) && Spell(at + [s]) == first + Rest(at[1..] + [s]);
        hide Itoa, Rest, Spell;
        FurtherStep(first + Rest(at[1..]), s);
        JoinedText(first, Rest(at[1..]), StepText(s));
      }
    }
  }

  lemma FurtherStep(path: string, s: Segment)
    requires path != ""
    ensures ChildPath(path, s) == path + StepText(s)
  {
    hide Itoa;
    match s {
      case Key(name) => JoinedText(path, ".", name);
      case Index(i) =>
        JoinedText(path, "[", Itoa(i) + "]");
        JoinedText("[", Itoa(i), "]");
        JoinedText(path + "[", Itoa(i), "]");
    }
  }

  lemma {:induction false} RenderIsSpelled(at: seq<Segment>)
    ensures Render(at) == Spell(at)
    decreases |at|
  {
    if at != [] {
      var init, last := at[..|at| - 1], at[|at| - 1];
      RenderIsSpelled(init);
      SpellAppend(init, last);
      assert init + [last] == at;
    }
  }

  // What an entry reports as its path.
  lemma PathsAreSpelledOut(from: Json, to: Json)
    ensures forall d :: d in ValueDiff("", [], from, to) ==>
      d.path == (if d.at == [] then "$" else Spell(d.at)) || (Spell(d.at) == "" && d.path == "$")
  {
    PathsAreRendered([], from, to);
    var ds := ValueDiff("", [], from, to);
    assert Render([]) == "" && Rendered(ds);
    hide ValueDiff, Render, Spell;
    forall d | d in ds
      ensures d.path == (if d.at == [] then "$" else Spell(d.at)) || (Spell(d.at) == "" && d.path == "$")
    {
      var i :| 0 <= i < |ds| && ds[i] == d;
      RenderIsSpelled(d.at);
    }
  }

  // ---- Which texts steps can add ---------------------------------------------------------------------

  // A decimal numeral without leading zeros.
  predicate IsNumeral(s: string) {
    s != "" && Digits(s) && (s[0] != '0' || |s| == 1)
  }

  // Any number of numerals in brackets, and then the end or a dot and anything.
  predicate Continues(t: string)
    decreases |t|
  {
    t == "" || t[0] == '.'
    || (t[0] == '[' &&
        var e := Find(t, {']'});
        1 <= e < |t| && IsNumeral(t[1..e]) && Continues(t[e + 1..]))
  }

  lemma {:induction false} ItoaIsNumeral(n: nat)
    ensures IsNumeral(Itoa(n)) && (n > 0 ==> Itoa(n)[0] != '0')
  {
    if n >= 10 {
      ItoaIsNumeral(n / 10);
      assert Itoa(n)[0] == Itoa(n / 10)[0];
    }
  }

  lemma {:induction false} NumeralIsItoa(s: string)
    requires IsNumeral(s)
    ensures Itoa(DigitsValue(s)) == s && (s[0] != '0' ==> DigitsValue(s) > 0)
    decreases |s|
  {
    var n := |s| - 1;
    var c := s[n];
    assert c in s && '0' <= c <= '9';
    assert s == s[..n] + [c];
    var d := c as int - 48;
    assert Digit(d) == c;
    if n == 0 {
      assert s[..n] == "";
      assert DigitsValue(s) == d;
    } else {
      var init := s[..n];
      assert forall x :: x in init ==> x in s;
      NumeralIsItoa(init);
      var v := DigitsValue(init);
      assert DigitsValue(s) == 10 * v + d;
      assert (10 * v + d) / 10 == v && (10 * v + d) % 10 == d;
    }
  }

  lemma Bracketed(i: nat, after: string)
    ensures Continues("[" + Itoa(i) + "]" + after) <==> Continues(after)
  {
    var t := "[" + Itoa(i) + "]" + after;
    var before := "[" + Itoa(i);
    assert t == before + [']'] + after;
    FindFirst(before, ']', after, {']'});
    ItoaIsNumeral(i);
    hide Itoa, Find, IsNumeral;
    var e := |before|;
    assert t[1..e] == Itoa(i) && t[e + 1..] == after && t[0] == '[';
  }

  lemma {:induction false} RestContinues(steps: seq<Segment>)
    ensures Continues(Rest(steps))
    decreases |steps|
  {
    if steps != [] {
      RestContinues(steps[1..]);
      if steps[0].Index? { Bracketed(steps[0].i, Rest(steps[1..])); }
    }
  }

  lemma {:induction false} StepsOf(t: string) returns (steps: seq<Segment>)
    requires Continues(t)
    ensures Rest(steps) == t
    decreases |t|
  {
    if t == "" {
      return [];
    } else if t[0] == '.' {
      steps := [Key(t[1..])];
      assert steps[1..] == [] && t == "." + t[1..];
    } else {
      var e := Find(t, {']'});
      assert 1 <= e < |t| && IsNumeral(t[1..e]) && Continues(t[e + 1..]);
      var i := DigitsValue(t[1..e]);
      NumeralIsItoa(t[1..e]);
      FindEnds(t, {']'});
      hide Find, IsNumeral, Continues, Itoa, DigitsValue;
      var rest := StepsOf(t[e + 1..]);
      steps := [Index(i)] + rest;
      BracketSplits(t, e);
      assert steps[1..] == rest && StepText(Index(i)) == "[" + t[1..e] + "]";
    }
  }

  lemma BracketSplits(t: string, e: nat)
    requires 1 <= e < |t| && t[0] == '[' && t[e] == ']'
    ensures t == "[" + t[1..e] + "]" + t[e + 1..]
  {
  }

  lemma {:induction false} FindEnds(t: string, marks: set<char>)
    ensures Find(t, marks) < |t| ==> t[Find(t, marks)] in marks
  {
    if t != "" { FindEnds(t[1..], marks); }
  }

  // The texts that steps add are exactly those.
  lemma ContinuesIff(t: string)
    ensures Continues(t) <==> exists steps :: Rest(steps) == t
  {
    if Continues(t) {
      var steps := StepsOf(t);
    }
    if steps :| Rest(steps) == t {
      RestContinues(steps);
    }
  }

  // ---- Keys that read like places below their siblings ------------------------------------------------

  // The key l reads like a place below the key k.
  predicate ReadsBelow(k: string, l: string) {
    |k| < |l| && k <= l && Continues(l[|k|..])
  }

  lemma ReadsBelowIff(k: string, l: string)
    ensures ReadsBelow(k, l) <==> exists steps :: steps != [] && l == k + Rest(steps)
  {
    if ReadsBelow(k, l) {
      var steps := StepsOf(l[|k|..]);
      assert l == k + l[|k|..] && steps != [];
    }
    if steps :| steps != [] && l == k + Rest(steps) {
      RestContinues(steps);
      assert l[|k|..] == Rest(steps) && Rest(steps) != "";
    }
  }

  // A beginning of what steps add, cut where a further step could begin, is itself what steps add.
  lemma {:induction false} PrefixContinues(steps: seq<Segment>, t: string, v: string)
    requires Rest(steps) == t + v && (v == "" || v[0] in ".[")
    ensures Continues(t)
    decreases |steps|
  {
    if t != "" && steps != [] {
      assert (t + v)[0] == t[0] == StepText(steps[0])[0];
      if steps[0].Index? {
        var i, rest := steps[0].i, Rest(steps[1..]);
        var head := "[" + Itoa(i) + "]";
        assert Rest(steps) == head + rest;
        CutsAfterBracket(i, rest, t, v);
        hide *;
        PrefixContinues(steps[1..], t[|head|..], v);
        Bracketed(i, t[|head|..]);
      }
    }
  }

  // No further step begins inside the brackets.
  lemma CutsAfterBracket(i: nat, rest: string, t: string, v: string)
    requires t != "" && (v == "" || v[0] in ".[")
    requires "[" + Itoa(i) + "]" + rest == t + v
    ensures var head := "[" + Itoa(i) + "]";
      |head| <= |t| && t == head + t[|head|..] && rest == t[|head|..] + v
  {
    var head := "[" + Itoa(i) + "]";
    var text := t + v;
    assert forall c :: c in Itoa(i) ==> '0' <= c <= '9';
    hide Itoa;
    assert forall n :: 1 <= n < |head| ==> head[n] == ']' || head[n] in Itoa(i);
    assert forall n :: 0 <= n < |head| ==> head[n] == text[n];
    assert v != "" ==> text[|t|] == v[0];
    assert text[..|t|] == t && text[|t|..] == v && text[..|head|] == head && text[|head|..] == rest;
  }

  lemma {:induction false} RestStart(steps: seq<Segment>)
    ensures Rest(steps) == "" || Rest(steps)[0] in ".["
  {
  }

  // Steps below two siblings have one text only if one sibling reads like a place below the other.
  lemma SameTextBelow(k: string, l: string, x: seq<Segment>, y: seq<Segment>)
    requires k != l && k + Rest(x) == l + Rest(y)
    ensures ReadsBelow(k, l) || ReadsBelow(l, k)
  {
    if |k| <= |l| {
      LongerReadsBelow(k, l, x, y);
    } else {
      LongerReadsBelow(l, k, y, x);
    }
  }

  lemma LongerReadsBelow(k: string, l: string, x: seq<Segment>, y: seq<Segment>)
    requires k != l && |k| <= |l| && k + Rest(x) == l + Rest(y)
    ensures ReadsBelow(k, l)
  {
    RestStart(y);
    hide Rest, Continues;
    LongerExtends(k, l, Rest(x), Rest(y));
    PrefixContinues(x, l[|k|..], Rest(y));
  }

  lemma LongerExtends(k: string, l: string, x: string, y: string)
    requires k != l && |k| <= |l| && k + x == l + y
    ensures k <= l && |k| < |l| && x == l[|k|..] + y
  {
    var text := k + x;
    assert k == text[..|k|] && l == text[..|l|];
    assert x == text[|k|..];
  }

  // Two sibling keys of objects at this path whose entries can report one path. (An empty key adds
  // nothing to an empty path.)
  predicate Clash(path: string, k: string, l: string) {
    ReadsBelow(k, l) || ReadsBelow(l, k) || (path == "" && (k == "" || l == ""))
  }

  lemma SameAfter(p: string, k: string, x: string, l: string, y: string)
    requires p + k + x == p + l + y
    ensures k + x == l + y
  {
    assert p + k + x == p + (k + x) && p + l + y == p + (l + y);
    assert k + x == (p + (k + x))[|p|..] && l + y == (p + (l + y))[|p|..];
  }

  lemma SameJoinedText(path: string, k: string, l: string, x: seq<Segment>, y: seq<Segment>)
    requires k != l && !(path == "" && (k == "" || l == ""))
    requires JoinPath(path, k) + Rest(x) == JoinPath(path, l) + Rest(y)
    ensures Clash(path, k, l)
  {
    if path != "" {
      hide Rest, Clash;
      SameAfter(path + ".", k, Rest(x), l, Rest(y));
    }
    SameTextBelow(k, l, x, y);
  }

  // ---- Distinct paths ------------------------------------------------------------------------------------

  // No object that both documents have at one place has clashing keys, on either side.
  predicate NoClashes(path: string, from: Json, to: Json)
    decreases from
  {
    match from
    case Obj(fields) =>
      to.Obj? ==>
        && (forall k, l | k in fields.Keys + to.fields.Keys && l in fields.Keys + to.fields.Keys ::
              k != l ==> !Clash(path, k, l))
        && (forall k | k in fields && k in to.fields :: NoClashes(JoinPath(path, k), fields[k], to.fields[k]))
    case Arr(items) =>
      to.Arr? ==>
        forall i | 0 <= i < |items| && i < |to.items| :: NoClashes(IndexPath(path, i), items[i], to.items[i])
    case _ => true
  }

  ghost predicate Distinct(ds: seq<FieldDiff>) {
    forall i, j :: 0 <= i < j < |ds| ==> ds[i].path != ds[j].path
  }

  ghost predicate Apart(a: seq<FieldDiff>, b: seq<FieldDiff>) {
    forall i, j :: 0 <= i < |a| && 0 <= j < |b| ==> a[i].path != b[j].path
  }

  lemma DistinctConcat(a: seq<FieldDiff>, b: seq<FieldDiff>)
    requires Distinct(a) && Distinct(b) && Apart(a, b)
    ensures Distinct(a + b)
  {
  }

  // The path of an entry at or below a child.
  lemma PathBelow(at: seq<Segment>, s: Segment, d: FieldDiff) returns (x: seq<Segment>)
    requires at + [s] <= d.at && Spelled(d.at, d.path) && ChildPath(Render(at), s) != ""
    ensures d.path == ChildPath(Render(at), s) + Rest(x)
  {
    var child := at + [s];
    x := d.at[|child|..];
    assert d.at == child + x && child[..|at|] == at;
    assert Render(child) == ChildPath(Render(at), s);
    RenderRest(child, x);
    hide Render, Rest;
  }

  lemma {:induction false} PathsAreDistinctAt(at: seq<Segment>, from: Json, to: Json)
    requires NoClashes(Render(at), from, to)
    ensures Distinct(ValueDiff(Render(at), at, from, to))
    decreases from, 1, 0
  {
    if from != to && from.Obj? && to.Obj? {
      KeysAreDistinct(at, from, to, UnionKeys(from, to));
    } else if from != to && from.Arr? && to.Arr? {
      ItemsAreDistinct(at, from, to, 0);
    }
  }

  lemma {:induction false} KeysAreDistinct(at: seq<Segment>, from: Json, to: Json, keys: seq<string>)
    requires from.Obj? && to.Obj? && forall k :: k in keys ==> k in from.fields || k in to.fields
    requires Sorted(keys) && NoClashes(Render(at), from, to)
    ensures Distinct(MapDiff(Render(at), at, from, to, keys))
    decreases from, 0, |keys|
  {
    if keys != [] {
      var k, rest := keys[0], keys[1..];
      KeyIsDistinct(at, from, to, k);
      KeysAreDistinct(at, from, to, rest);
      SortedHasNoDuplicates(keys);
      assert k !in rest;
      KeysApart(at, from, to, k, rest);
      DistinctConcat(KeyDiff(Render(at), at, from, to, k), MapDiff(Render(at), at, from, to, rest));
    }
  }

  lemma {:induction false} KeyIsDistinct(at: seq<Segment>, from: Json, to: Json, k: string)
    requires from.Obj? && to.Obj? && (k in from.fields || k in to.fields) && NoClashes(Render(at), from, to)
    ensures Distinct(KeyDiff(Render(at), at, from, to, k))
    decreases from, 0, 0
  {
    if k in from.fields && k in to.fields {
      var child := at + [Key(k)];
      assert child[..|at|] == at && Render(child) == JoinPath(Render(at), k);
      PathsAreDistinctAt(child, from.fields[k], to.fields[k]);
    }
  }

  lemma KeysApart(at: seq<Segment>, from: Json, to: Json, k: string, rest: seq<string>)
    requires from.Obj? && to.Obj? && (k in from.fields || k in to.fields) && k !in rest
    requires forall l :: l in rest ==> l in from.fields || l in to.fields
    requires NoClashes(Render(at), from, to)
    ensures Apart(KeyDiff(Render(at), at, from, to, k), MapDiff(Render(at), at, from, to, rest))
  {
    var p := Render(at);
    var a, b := KeyDiff(p, at, from, to, k), MapDiff(p, at, from, to, rest);
    KeyDiffUnder(p, at, from, to, k);
    MapDiffUnder(p, at, from, to, rest);
    KeyPathsAreRendered(at, from, to, [k]);
    assert MapDiff(p, at, from, to, [k]) == a + MapDiff(p, at, from, to, []) == a;
    KeyPathsAreRendered(at, from, to, rest);
    assert forall l :: l in rest ==> !Clash(p, k, l);
    hide *;
    hide Clash;
    forall i, j | 0 <= i < |a| && 0 <= j < |b| ensures a[i].path != b[j].path {
      var l :| l in rest && at + [Key(l)] <= b[j].at;
      EntriesApart(at, k, l, a[i], b[j]);
    }
  }

  lemma EntriesApart(at: seq<Segment>, k: string, l: string, d: FieldDiff, e: FieldDiff)
    requires k != l && at + [Key(k)] <= d.at && at + [Key(l)] <= e.at && !Clash(Render(at), k, l)
    requires Spelled(d.at, d.path) && Spelled(e.at, e.path)
    ensures d.path != e.path
  {
    var p := Render(at);
    hide Render, ReadsBelow, Spelled;
    var x := PathBelow(at, Key(k), d);
    var y := PathBelow(at, Key(l), e);
    if d.path == e.path { SameJoinedText(p, k, l, x, y); }
  }

  lemma {:induction false} ItemsAreDistinct(at: seq<Segment>, from: Json, to: Json, n: nat)
    requires from.Arr? && to.Arr? && n <= MaxLen(from, to) && NoClashes(Render(at), from, to)
    ensures Distinct(SliceDiff(Render(at), at, from, to, n))
    decreases from, 0, MaxLen(from, to) - n
  {
    if n < MaxLen(from, to) {
      ItemIsDistinct(at, from, to, n);
      ItemsAreDistinct(at, from, to, n + 1);
      ItemsApart(at, from, to, n);
      DistinctConcat(ItemDiff(Render(at), at, from, to, n), SliceDiff(Render(at), at, from, to, n + 1));
    }
  }

  lemma {:induction false} ItemIsDistinct(at: seq<Segment>, from: Json, to: Json, n: nat)
    requires from.Arr? && to.Arr? && n < MaxLen(from, to) && NoClashes(Render(at), from, to)
    ensures Distinct(ItemDiff(Render(at), at, from, to, n))
    decreases from, 0, 0
  {
    if n < |from.items| && n < |to.items| {
      var child := at + [Index(n)];
      assert child[..|at|] == at && Render(child) == IndexPath(Render(at), n);
      PathsAreDistinctAt(child, from.items[n], to.items[n]);
    }
  }

  lemma ItemsApart(at: seq<Segment>, from: Json, to: Json, n: nat)
    requires from.Arr? && to.Arr? && n < MaxLen(from, to)
    ensures Apart(ItemDiff(Render(at), at, from, to, n), SliceDiff(Render(at), at, from, to, n + 1))
  {
    var p := Render(at);
    var a, b := ItemDiff(p, at, from, to, n), SliceDiff(p, at, from, to, n + 1);
    ItemDiffUnder(p, at, from, to, n);
    SliceDiffUnder(p, at, from, to, n + 1);
    ItemPathsAreRendered(at, from, to, n);
    assert SliceDiff(p, at, from, to, n) == a + b;
    hide *;
    forall i, j | 0 <= i < |a| && 0 <= j < |b| ensures a[i].path != b[j].path {
      var m: nat :| n + 1 <= m && at + [Index(m)] <= b[j].at;
      assert (a + b)[i] == a[i] && (a + b)[|a| + j] == b[j];
      ItemEntriesApart(at, n, m, a[i], b[j]);
    }
  }

  lemma ItemEntriesApart(at: seq<Segment>, n: nat, m: nat, d: FieldDiff, e: FieldDiff)
    requires n != m && at + [Index(n)] <= d.at && at + [Index(m)] <= e.at
    requires Spelled(d.at, d.path) && Spelled(e.at, e.path)
    ensures d.path != e.path
  {
    hide Render, Spelled, IndexPath;
    assert IndexPath(Render(at), n) != "" && IndexPath(Render(at), m) != "" by { IndexIsText(Render(at)); }
    var x := PathBelow(at, Index(n), d);
    var y := PathBelow(at, Index(m), e);
    if d.path == e.path { SameIndexedText(Render(at), n, m, Rest(x), Rest(y)); }
  }

  lemma IndexIsText(path: string)
    ensures forall n: nat :: IndexPath(path, n) != ""
  {
    hide Itoa;
  }

  lemma SameIndexedText(p: string, n: nat, m: nat, x: string, y: string)
    requires IndexPath(p, n) + x == IndexPath(p, m) + y
    ensures n == m
  {
    var a, b := Itoa(n), Itoa(m);
    hide Itoa;
    AfterBracket(p, a, x);
    AfterBracket(p, b, y);
    SameToBracket(a, x, b, y);
    ItoaIsInjective(n, m);
  }

  lemma AfterBracket(p: string, numeral: string, x: string)
    ensures (p + "[" + numeral + "]" + x)[|p| + 1..] == numeral + [']'] + x
  {
    assert p + "[" + numeral + "]" + x == (p + "[") + (numeral + [']'] + x);
  }

  lemma SameToBracket(a: string, x: string, b: string, y: string)
    requires a + [']'] + x == b + [']'] + y && ']' !in a && ']' !in b
    ensures a == b
  {
    FindFirst(a, ']', x, {']'});
    FindFirst(b, ']', y, {']'});
    assert a == (a + [']'] + x)[..|a|] && b == (b + [']'] + y)[..|b|];
  }

  // Two entries of one difference never report the same path when no object that both documents have
  // has clashing keys.
  lemma PathsAreDistinct(from: Json, to: Json)
    requires NoClashes("", from, to)
    ensures Distinct(ValueDiff("", [], from, to))
  {
    PathsAreDistinctAt([], from, to);
  }

  // Then sorting by path leaves no choice: every sorted permutation of a difference is the same list.
  lemma SortedResultIsUnique(from: Json, to: Json, a: seq<FieldDiff>, b: seq<FieldDiff>)
    requires NoClashes("", from, to)
    requires multiset(a) == multiset(ValueDiff("", [], from, to)) && multiset(b) == multiset(a)
    requires SortedByPath(a) && SortedByPath(b)
    ensures a == b
  {
    var ds := ValueDiff("", [], from, to);
    PathsAreDistinct(from, to);
    forall d, e | d in a && e in a && d.path == e.path ensures d == e {
      assert d in multiset(ds) && e in multiset(ds);
      var i :| 0 <= i < |ds| && ds[i] == d;
      var j :| 0 <= j < |ds| && ds[j] == e;
      assert i == j;
    }
    SameSortedLists(a, b);
  }

  lemma {:induction false} SameSortedLists(a: seq<FieldDiff>, b: seq<FieldDiff>)
    requires multiset(a) == multiset(b) && SortedByPath(a) && SortedByPath(b)
    requires forall d, e :: d in a && e in a && d.path == e.path ==> d == e
    ensures a == b
    decreases |a|
  {
    hide Precedes;
    if a == [] {
      assert |multiset(b)| == 0;
    } else {
      SameFirst(a, b);
      TailIsSorted(a);
      TailIsSorted(b);
      hide SortedByPath;
      SameSortedLists(a[1..], b[1..]);
    }
  }

  lemma TailIsSorted(a: seq<FieldDiff>)
    requires a != [] && SortedByPath(a)
    ensures SortedByPath(a[1..]) && multiset(a[1..]) == multiset(a) - multiset{a[0]} && a == [a[0]] + a[1..]
  {
    hide Precedes;
    assert a == [a[0]] + a[1..];
  }

  lemma SameFirst(a: seq<FieldDiff>, b: seq<FieldDiff>)
    requires a != [] && multiset(a) == multiset(b) && SortedByPath(a) && SortedByPath(b)
    requires forall d, e :: d in a && e in a && d.path == e.path ==> d == e
    ensures b != [] && a[0] == b[0]
  {
    hide Precedes;
    assert |multiset(a)| == |multiset(b)|;
    assert a[0] in multiset(b) && b[0] in multiset(a);
    var i :| 0 <= i < |b| && b[i] == a[0];
    var j :| 0 <= j < |a| && a[j] == b[0];
    PrecedesIsStrictOrder(a[0].path, b[0].path, a[0].path);
    assert a[0].path == b[0].path;
  }

  // Keys that are not empty and hold no '.' and no '[' never clash.
  lemma {:induction false} PlainKeysNeverClash(path: string, from: Json, to: Json)
    requires PlainKeys(from) && PlainKeys(to)
    ensures NoClashes(path, from, to)
    decreases from
  {
    match from {
      case Obj(fields) =>
        if to.Obj? {
          forall k, l | k in fields.Keys + to.fields.Keys && l in fields.Keys + to.fields.Keys && k != l
            ensures !Clash(path, k, l)
          {
            assert PlainKey(k) && PlainKey(l);
            PlainIsNotBelow(k, l);
            PlainIsNotBelow(l, k);
          }
          forall k | k in fields && k in to.fields ensures NoClashes(JoinPath(path, k), fields[k], to.fields[k]) {
            PlainKeysNeverClash(JoinPath(path, k), fields[k], to.fields[k]);
          }
        }
      case Arr(items) =>
        if to.Arr? {
          forall i | 0 <= i < |items| && i < |to.items| ensures NoClashes(IndexPath(path, i), items[i], to.items[i]) {
            PlainKeysNeverClash(IndexPath(path, i), items[i], to.items[i]);
          }
        }
      case _ =>
    }
  }

  lemma PlainIsNotBelow(k: string, l: string)
    requires PlainKey(l)
    ensures !ReadsBelow(k, l)
  {
    if |k| < |l| { assert l[|k|..][0] == l[|k|] && l[|k|] in l; }
  }

  // ---- Clashing keys collide -----------------------------------------------------------------------------

  // A document with one leaf, at the given place.
  function Nested(steps: seq<Segment>, leaf: Json): Json {
    if steps == [] then leaf
    else match steps[0]
      case Key(name) => Obj(map[name := Nested(steps[1..], leaf)])
      case Index(i) => Arr(seq(i, _ => Null) + [Nested(steps[1..], leaf)])
  }

  lemma {:induction false} NestedDiffers(steps: seq<Segment>)
    ensures Nested(steps, Bool(true)) != Nested(steps, Bool(false))
    decreases |steps|
  {
    var from, to := Nested(steps, Bool(true)), Nested(steps, Bool(false));
    if steps != [] {
      NestedDiffers(steps[1..]);
      match steps[0] {
        case Key(name) => assert from.fields[name] != to.fields[name];
        case Index(i) => assert from.items[i] != to.items[i];
      }
    }
  }

  // The entry of a leaf that goes from true to false.
  function LeafEntry(at: seq<Segment>): FieldDiff {
    FieldDiff(at, PathOrRoot(Render(at)), Bool(true), Bool(false), Changed)
  }

  lemma {:induction false} NestedEntry(at: seq<Segment>, steps: seq<Segment>)
    ensures LeafEntry(at + steps) in ValueDiff(Render(at), at, Nested(steps, Bool(true)), Nested(steps, Bool(false)))
    decreases |steps|
  {
    if steps == [] {
      assert at + steps == at;
    } else {
      var below := at + [steps[0]];
      assert below + steps[1..] == at + steps && below[..|at|] == at;
      assert Render(below) == ChildPath(Render(at), steps[0]);
      hide *;
      NestedEntry(below, steps[1..]);
      ChildEntry(Render(at), at, steps, LeafEntry(at + steps), Render(below));
    }
  }

  // An entry below the first step is an entry of the whole.
  lemma ChildEntry(path: string, at: seq<Segment>, steps: seq<Segment>, d: FieldDiff, child: string)
    requires steps != [] && child == ChildPath(path, steps[0])
    requires d in ValueDiff(child, at + [steps[0]], Nested(steps[1..], Bool(true)), Nested(steps[1..], Bool(false)))
    ensures d in ValueDiff(path, at, Nested(steps, Bool(true)), Nested(steps, Bool(false)))
  {
    var from, to := Nested(steps, Bool(true)), Nested(steps, Bool(false));
    NestedDiffers(steps);
    NestedDiffers(steps[1..]);
    hide Less, Precedes, Sorted, SortedKeys, JoinPath, IndexPath;
    match steps[0] {
      case Key(name) =>
        assert name in from.fields && name in to.fields;
        assert from.fields[name] == Nested(steps[1..], Bool(true));
        assert to.fields[name] == Nested(steps[1..], Bool(false));
        hide Nested;
        EntryOfKey(path, at, from, to, UnionKeys(from, to), name, d);
      case Index(i) =>
        assert |from.items| == |to.items| == i + 1;
        assert from.items[i] == Nested(steps[1..], Bool(true)) && to.items[i] == Nested(steps[1..], Bool(false));
        hide Nested;
        EntryOfItem(path, at, from, to, 0, i, d);
    }
  }

  // In the difference of these two objects, an entry below one key and an entry below the other
  // report one path.
  ghost predicate Collide(at: seq<Segment>, k: string, l: string, from: Json, to: Json) {
    var ds := ValueDiff(Render(at), at, from, to);
    exists d, e :: d in ds && e in ds && at + [Key(k)] <= d.at && at + [Key(l)] <= e.at && d.path == e.path
  }

  ghost predicate HasKeys(j: Json, keys: set<string>) {
    j.Obj? && j.fields.Keys == keys
  }

  // Exactly for clashing keys: two keys of the objects at a place are in danger of sharing a path
  // if and only if they clash, whatever the place and whatever the keys.
  lemma SiblingsCollideIff(at: seq<Segment>, k: string, l: string)
    requires k != l
    ensures Clash(Render(at), k, l)
        <==> exists from, to :: HasKeys(from, {k, l}) && HasKeys(to, {k, l}) && Collide(at, k, l, from, to)
  {
    if Clash(Render(at), k, l) {
      var from, to := ClashingKeysCollide(at, k, l);
    }
    if from, to :| HasKeys(from, {k, l}) && HasKeys(to, {k, l}) && Collide(at, k, l, from, to) {
      CollidingKeysClash(at, k, l, from, to);
    }
  }

  lemma CollidingKeysClash(at: seq<Segment>, k: string, l: string, from: Json, to: Json)
    requires k != l && Collide(at, k, l, from, to)
    ensures Clash(Render(at), k, l)
  {
    var ds := ValueDiff(Render(at), at, from, to);
    var d, e :| d in ds && e in ds && at + [Key(k)] <= d.at && at + [Key(l)] <= e.at && d.path == e.path;
    PathsAreRendered(at, from, to);
    hide ValueDiff, Spelled, Render, Clash;
    if !Clash(Render(at), k, l) { EntriesApart(at, k, l, d, e); }
  }

  lemma ClashingKeysCollide(at: seq<Segment>, k: string, l: string) returns (from: Json, to: Json)
    requires k != l && Clash(Render(at), k, l)
    ensures HasKeys(from, {k, l}) && HasKeys(to, {k, l}) && Collide(at, k, l, from, to)
  {
    var p := Render(at);
    if (p == "" && k == "") || (ReadsBelow(k, l) && JoinPath(p, k) != "") {
      from, to := TwinsCollide(at, k, l);
    } else {
      from, to := TwinsCollide(at, l, k);
      hide ValueDiff, Render;
      assert {l, k} == {k, l};
    }
  }

  // One key reads like the place of the leaf below the other.
  lemma TwinsCollide(at: seq<Segment>, k: string, l: string) returns (from: Json, to: Json)
    requires k != l && ((Render(at) == "" && k == "") || (ReadsBelow(k, l) && JoinPath(Render(at), k) != ""))
    ensures HasKeys(from, {k, l}) && HasKeys(to, {k, l}) && Collide(at, k, l, from, to)
  {
    var steps := TwinSteps(at, k, l);
    from, to := Twins(k, l, steps, Bool(true)), Twins(k, l, steps, Bool(false));
    RenderKey(at, l);
    SharedPath(at, k, l, steps);
    hide *;
    TwinsHaveKeys(k, l, steps);
  }

  lemma SharedPath(at: seq<Segment>, k: string, l: string, steps: seq<Segment>)
    requires k != l && Render(at + [Key(k)] + steps) == Render(at + [Key(l)])
    ensures Collide(at, k, l, Twins(k, l, steps, Bool(true)), Twins(k, l, steps, Bool(false)))
  {
    DeepEntry(at, k, l, steps);
    OwnEntry(at, k, l, steps);
    var d, e := LeafEntry(at + [Key(k)] + steps), LeafEntry(at + [Key(l)]);
    assert d.at == at + [Key(k)] + steps && e.at == at + [Key(l)] && d.path == e.path;
    hide ValueDiff, Render, Twins, LeafEntry;
  }

  lemma TwinsHaveKeys(k: string, l: string, steps: seq<Segment>)
    ensures forall leaf :: HasKeys(Twins(k, l, steps, leaf), {k, l})
  {
    hide Nested;
  }

  lemma DeepEntry(at: seq<Segment>, k: string, l: string, steps: seq<Segment>)
    requires k != l
    ensures LeafEntry(at + [Key(k)] + steps)
         in ValueDiff(Render(at), at, Twins(k, l, steps, Bool(true)), Twins(k, l, steps, Bool(false)))
  {
    NestedEntry(at + [Key(k)], steps);
    RenderKey(at, k);
    hide *;
    MemberEntry(at, k, l, steps, k, LeafEntry(at + [Key(k)] + steps));
  }

  lemma OwnEntry(at: seq<Segment>, k: string, l: string, steps: seq<Segment>)
    requires k != l
    ensures LeafEntry(at + [Key(l)])
         in ValueDiff(Render(at), at, Twins(k, l, steps, Bool(true)), Twins(k, l, steps, Bool(false)))
  {
    var place := at + [Key(l)];
    assert place + [] == place;
    NestedEntry(place, []);
    RenderKey(at, l);
    hide *;
    MemberEntry(at, k, l, steps, l, LeafEntry(place));
  }

  // The steps below the one key whose place has the other key's path.
  lemma TwinSteps(at: seq<Segment>, k: string, l: string) returns (steps: seq<Segment>)
    requires k != l && ((Render(at) == "" && k == "") || (ReadsBelow(k, l) && JoinPath(Render(at), k) != ""))
    ensures Render(at + [Key(k)] + steps) == JoinPath(Render(at), l)
  {
    RenderKey(at, k);
    if Render(at) == "" && k == "" {
      steps := [Key(l)];
      RenderKey(at + [Key(k)], l);
    } else {
      ReadsBelowIff(k, l);
      steps :| l == k + Rest(steps);
      RenderRest(at + [Key(k)], steps);
      if Render(at) != "" { JoinedText(Render(at) + ".", k, Rest(steps)); }
    }
  }

  lemma RenderKey(at: seq<Segment>, k: string)
    ensures Render(at + [Key(k)]) == JoinPath(Render(at), k)
  {
    assert (at + [Key(k)])[..|at|] == at;
  }

  // The document with a leaf below the one key and one under the other.
  function Twins(k: string, l: string, steps: seq<Segment>, leaf: Json): Json {
    Obj(map[k := Nested(steps, leaf), l := leaf])
  }

  lemma MemberEntry(at: seq<Segment>, k: string, l: string, steps: seq<Segment>, name: string, d: FieldDiff)
    requires k != l && name in {k, l}
    requires var below := if name == k then steps else [];
      d in ValueDiff(JoinPath(Render(at), name), at + [Key(name)],
                     Nested(below, Bool(true)), Nested(below, Bool(false)))
    ensures d in ValueDiff(Render(at), at, Twins(k, l, steps, Bool(true)), Twins(k, l, steps, Bool(false)))
  {
    var from, to := Twins(k, l, steps, Bool(true)), Twins(k, l, steps, Bool(false));
    assert from != to by { assert from.fields[l] != to.fields[l]; }
    var below := if name == k then steps else [];
    assert from.fields[name] == Nested(below, Bool(true)) && to.fields[name] == Nested(below, Bool(false));
    assert name in from.fields && name in to.fields;
    NestedDiffers(below);
    hide Render, Twins, Nested, Less, Precedes, Sorted, SortedKeys, JoinPath;
    EntryOfKey(Render(at), at, from, to, UnionKeys(from, to), name, d);
  }
}
