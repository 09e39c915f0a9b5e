// Decoded JSON trees, and the compact text encoding/json prints for them.
module Json {
  import opened Text

  // A decoded number (a float64) is identified with the shortest text that reads back as it,
  // which is the text the encoder prints.
  datatype Json =
    | Null
    | Bool(b: bool)
    | Num(text: string)
    | Str(s: string)
    | Arr(items: seq<Json>)
    | Obj(fields: map<string, Json>)

  predicate IsNumberText(text: string) {
    && text != []
    && ('0' <= text[0] <= '9' || text[0] == '-')
    && forall c :: c in text ==> '0' <= c <= '9' || c in "+-.eE"
  }

  predicate WellFormed(j: Json) {
    match j
    case Num(text) => IsNumberText(text)
    case Arr(items) => forall i | 0 <= i < |items| :: WellFormed(items[i])
    case Obj(fields) => forall k | k in fields :: WellFormed(fields[k])
    case _ => true
  }

  // ---- Encoding (RFC 8259, sections 3 to 7; HTML-safe escapes, sorted keys) ---------

  function Hex(d: nat): char
    requires d < 16
  {
    if d < 10 then '0' + d as char else 'a' + (d - 10) as char
  }

  function EscapeChar(c: char): string {
    var n := c as int;
    if c == '\"' then "\\\""
    else if c == '\\' then "\\\\"
    else if n == 8 then "\\b"
    else if n == 12 then "\\f"
    else if c == '\n' then "\\n"
    else if c == '\r' then "\\r"
    else if c == '\t' then "\\t"
    else if n < 0x20 || c in "<>&" then "\\u00" + [Hex(n / 16), Hex(n % 16)]
    else if n == 0x2028 then "\\u2028"
    else if n == 0x2029 then "\\u2029"
    else [c]
  }

  // The characters of a string up to and including its closing quote.
  function Characters(s: string): string {
    if s == [] then "\"" else EscapeChar(s[0]) + Characters(s[1..])
  }

  function Quote(s: string): string { "\"" + Characters(s) }

  function Encode(j: Json): string
    decreases j, 1, 0
  {
    match j
    case Null => "null"
    case Bool(b) => if b then "true" else "false"
    case Num(text) => text
    case Str(s) => Quote(s)
    case Arr(items) => if items == [] then "[]" else "[" + Encode(items[0]) + MoreItems(items[1..])
    case Obj(fields) => Members(j, SortedKeys(fields.Keys))
  }

  function Members(j: Json, keys: seq<string>): string
    requires j.Obj? && forall k :: k in keys ==> k in j.fields
    decreases j, 0, |keys| + 1
  {
    if keys == [] then "{}" else "{" + Member(j, keys[0]) + MoreMembers(j, keys[1..])
  }

  function MoreItems(items: seq<Json>): string
    decreases items, 0, 0
  {
    if items == [] then "]" else "," + Encode(items[0]) + MoreItems(items[1..])
  }

  function Member(j: Json, key: string): string
    requires j.Obj? && key in j.fields
    decreases j, 0, 0
  {
    Quote(key) + ":" + Encode(j.fields[key])
  }

  function MoreMembers(j: Json, keys: seq<string>): string
    requires j.Obj? && forall k :: k in keys ==> k in j.fields
    decreases j, 0, |keys|
  {
    if keys == [] then "}" else "," + Member(j, keys[0]) + MoreMembers(j, keys[1..])
  }

  // ---- Unique readability ------------------------------------------------------------

  // Equal concatenations whose left parts have equal length are equal part by part.
  lemma SplitAt<T>(a: seq<T>, x: seq<T>, b: seq<T>, y: seq<T>)
    requires a + x == b + y && |a| == |b|
    ensures a == b && x == y
  {
    assert a == (a + x)[..|a|] && b == (b + y)[..|a|];
    assert x == (a + x)[|a|..] && y == (b + y)[|a|..];
  }

  lemma Regroup<T>(a: seq<T>, b: seq<T>, c: seq<T>)
    ensures (a + b) + c == a + (b + c)
  {
  }

  lemma EscapeIsPrefixFree(c: char, d: char, x: string, y: string)
    requires EscapeChar(c) + x == EscapeChar(d) + y
    ensures c == d && x == y
  {
    var a, b := EscapeChar(c), EscapeChar(d);
    var l, r := a + x, b + y;
    assert l[0] == a[0] && r[0] == b[0];
    if a[0] == '\\' {
      assert l[1] == a[1] && r[1] == b[1];
      if a[1] == 'u' {
        assert |a| == 6 == |b|;
        assert l[2..6] == a[2..6] && r[2..6] == b[2..6];
        assert a[4] == b[4] && a[5] == b[5];
      }
    }
    assert |a| == |b|;
    SplitAt(a, x, b, y);
  }

  lemma EscapeNeverStartsWithAQuote(s: string)
    ensures Characters(s) != [] && (Characters(s)[0] == '\"' <==> s == [])
  {
  }

  lemma ReadFirstCharacter(s: string, t: string, r: string, q: string)
    requires s != [] && t != [] && Characters(s) + r == Characters(t) + q
    ensures s[0] == t[0] && Characters(s[1..]) + r == Characters(t[1..]) + q
  {
    assert Characters(s) == EscapeChar(s[0]) + Characters(s[1..]);
    assert Characters(t) == EscapeChar(t[0]) + Characters(t[1..]);
    hide EscapeChar, Characters;
    Regroup(EscapeChar(s[0]), Characters(s[1..]), r);
    Regroup(EscapeChar(t[0]), Characters(t[1..]), q);
    EscapeIsPrefixFree(s[0], t[0], Characters(s[1..]) + r, Characters(t[1..]) + q);
  }

  lemma {:induction false} ReadCharacters(s: string, t: string, r: string, q: string)
    requires Characters(s) + r == Characters(t) + q
    ensures s == t && r == q
  {
    EscapeNeverStartsWithAQuote(s);
    EscapeNeverStartsWithAQuote(t);
    assert Characters("") == "\"";
    hide EscapeChar, Characters;
    assert (Characters(s) + r)[0] == Characters(s)[0] && (Characters(t) + q)[0] == Characters(t)[0];
    if s != [] && t != [] {
      ReadFirstCharacter(s, t, r, q);
      ReadCharacters(s[1..], t[1..], r, q);
      assert s == [s[0]] + s[1..] && t == [t[0]] + t[1..];
    } else {
      assert s == t == [];
      SplitAt("\"", r, "\"", q);
    }
  }

  lemma ReadString(s: string, t: string, r: string, q: string)
    requires Quote(s) + r == Quote(t) + q
    ensures s == t && r == q
  {
    hide Characters;
    Regroup("\"", Characters(s), r);
    Regroup("\"", Characters(t), q);
    SplitAt("\"", Characters(s) + r, "\"", Characters(t) + q);
    ReadCharacters(s, t, r, q);
  }

  // What may follow a value in a document.
  predicate Delimited(r: string) { r == [] || r[0] in ",]}" }

  lemma {:induction false} ReadNumber(a: string, b: string, r: string, q: string)
    requires IsNumberText(a) && IsNumberText(b) && Delimited(r) && Delimited(q)
    requires a + r == b + q
    ensures a == b && r == q
  {
    var l := a + r;
    assert forall i :: 0 <= i < |a| ==> l[i] == a[i] && a[i] in a;
    assert forall i :: 0 <= i < |b| ==> l[i] == (b + q)[i] == b[i] && b[i] in b;
    assert |a| < |l| ==> l[|a|] == r[0];
    assert |b| < |l| ==> (b + q)[|b|] == q[0];
    SplitAt(a, r, b, q);
  }

  lemma FirstChar(j: Json)
    requires WellFormed(j)
    ensures Encode(j) != []
    ensures var c := Encode(j)[0]; match j
      case Null => c == 'n'
      case Bool(b) => c == if b then 't' else 'f'
      case Num(_) => '0' <= c <= '9' || c == '-'
      case Str(_) => c == '\"'
      case Arr(_) => c == '['
      case Obj(_) => c == '{'
  {
  }

  lemma {:induction false} ReadValue(a: Json, b: Json, r: string, q: string)
    requires WellFormed(a) && WellFormed(b) && Delimited(r) && Delimited(q)
    requires Encode(a) + r == Encode(b) + q
    ensures a == b && r == q
    decreases a, 1, 0
  {
    FirstChar(a); FirstChar(b);
    assert (Encode(a) + r)[0] == Encode(a)[0] && (Encode(b) + q)[0] == Encode(b)[0];
    match a
    case Null => SplitAt("null", r, "null", q);
    case Bool(v) => SplitAt(Encode(a), r, Encode(b), q);
    case Num(text) => ReadNumber(text, b.text, r, q);
    case Str(s) => ReadString(s, b.s, r, q);
    case Arr(items) => ReadArray(a, b, r, q);
    case Obj(fields) => ReadObject(a, b, r, q);
  }

  // One opening character, one value and the rest: the value and the rest can be compared.
  lemma Peel(c: string, v: string, m: string, r: string, w: string, n: string, q: string)
    requires (c + v + m) + r == (c + w + n) + q
    ensures v + (m + r) == w + (n + q)
  {
    assert (c + v + m) + r == c + (v + (m + r));
    assert (c + w + n) + q == c + (w + (n + q));
    SplitAt(c, v + (m + r), c, w + (n + q));
  }

  lemma MoreItemsStart(s: seq<Json>)
    ensures MoreItems(s) != [] && MoreItems(s)[0] == if s == [] then ']' else ','
  {
  }

  lemma {:induction false} ReadArray(a: Json, b: Json, r: string, q: string)
    requires a.Arr? && b.Arr? && WellFormed(a) && WellFormed(b) && Delimited(r) && Delimited(q)
    requires Encode(a) + r == Encode(b) + q
    ensures a == b && r == q
    decreases a, 0, 0
  {
    var s, t := a.items, b.items;
    assert (Encode(a) + r)[1] == Encode(a)[1] && (Encode(b) + q)[1] == Encode(b)[1];
    if s != [] { FirstChar(s[0]); assert Encode(a)[1] == Encode(s[0])[0]; }
    if t != [] { FirstChar(t[0]); assert Encode(b)[1] == Encode(t[0])[0]; }
    assert s == [] <==> t == [];
    if s == [] {
      SplitAt("[]", r, "[]", q);
    } else {
      hide Encode;
      MoreItemsStart(s[1..]);
      MoreItemsStart(t[1..]);
      Peel("[", Encode(s[0]), MoreItems(s[1..]), r, Encode(t[0]), MoreItems(t[1..]), q);
      ReadValue(s[0], t[0], MoreItems(s[1..]) + r, MoreItems(t[1..]) + q);
      ReadItems(s[1..], t[1..], r, q);
      assert s == [s[0]] + s[1..] && t == [t[0]] + t[1..];
    }
  }

  lemma {:induction false} ReadItems(s: seq<Json>, t: seq<Json>, r: string, q: string)
    requires forall i :: 0 <= i < |s| ==> WellFormed(s[i])
    requires forall i :: 0 <= i < |t| ==> WellFormed(t[i])
    requires Delimited(r) && Delimited(q)
    requires MoreItems(s) + r == MoreItems(t) + q
    ensures s == t && r == q
    decreases s, 0, 0
  {
    hide Encode;
    MoreItemsStart(s);
    MoreItemsStart(t);
    assert (MoreItems(s) + r)[0] == MoreItems(s)[0] && (MoreItems(t) + q)[0] == MoreItems(t)[0];
    if s == [] {
      SplitAt("]", r, "]", q);
    } else {
      MoreItemsStart(s[1..]);
      MoreItemsStart(t[1..]);
      Peel(",", Encode(s[0]), MoreItems(s[1..]), r, Encode(t[0]), MoreItems(t[1..]), q);
      ReadValue(s[0], t[0], MoreItems(s[1..]) + r, MoreItems(t[1..]) + q);
      ReadItems(s[1..], t[1..], r, q);
      assert s == [s[0]] + s[1..] && t == [t[0]] + t[1..];
    }
  }

  ghost predicate AgreeOn(a: Json, b: Json, keys: seq<string>)
    requires a.Obj? && b.Obj?
  {
    forall k :: k in keys ==> k in a.fields && k in b.fields && a.fields[k] == b.fields[k]
  }

  lemma MoreMembersStart(j: Json, keys: seq<string>)
    requires j.Obj? && forall k :: k in keys ==> k in j.fields
    ensures MoreMembers(j, keys) != [] && MoreMembers(j, keys)[0] == if keys == [] then '}' else ','
  {
  }

  lemma MembersStart(j: Json, keys: seq<string>)
    requires j.Obj? && forall k :: k in keys ==> k in j.fields
    ensures |Members(j, keys)| > 1 && Members(j, keys)[1] == if keys == [] then '}' else '\"'
  {
  }

  lemma {:induction false} ReadObject(a: Json, b: Json, r: string, q: string)
    requires a.Obj? && b.Obj? && WellFormed(a) && WellFormed(b) && Delimited(r) && Delimited(q)
    requires Encode(a) + r == Encode(b) + q
    ensures a == b && r == q
    decreases a, 0, |a.fields| + 2
  {
    var s, t := SortedKeys(a.fields.Keys), SortedKeys(b.fields.Keys);
    MembersStart(a, s);
    MembersStart(b, t);
    assert Encode(a) == Members(a, s) && Encode(b) == Members(b, t);
    assert s == [] ==> Members(a, s) == "{}";
    assert t == [] ==> Members(b, t) == "{}";
    hide Members, Encode, SortedKeys, Sorted, Less, Precedes;
    assert (Members(a, s) + r)[1] == Members(a, s)[1] && (Members(b, t) + q)[1] == Members(b, t)[1];
    if s == [] {
      SplitAt("{}", r, "{}", q);
    } else {
      ReadAllMembers(a, b, s, t, r, q);
    }
    SameFields(a, b, s, t);
  }

  lemma SameFields(a: Json, b: Json, s: seq<string>, t: seq<string>)
    requires a.Obj? && b.Obj? && (forall k :: k in a.fields.Keys <==> k in s) && s == t
    requires (forall k :: k in b.fields.Keys <==> k in t) && AgreeOn(a, b, s)
    ensures a == b
  {
    assert a.fields.Keys == b.fields.Keys;
    assert a.fields == b.fields;
  }

  lemma {:induction false} ReadAllMembers(a: Json, b: Json, s: seq<string>, t: seq<string>, r: string, q: string)
    requires a.Obj? && b.Obj? && WellFormed(a) && WellFormed(b) && Delimited(r) && Delimited(q)
    requires (forall k :: k in s ==> k in a.fields) && (forall k :: k in t ==> k in b.fields)
    requires s != [] && t != [] && Members(a, s) + r == Members(b, t) + q
    ensures s == t && r == q && AgreeOn(a, b, s)
    decreases a, 0, |s| + 1
  {
    hide Member;
    MoreMembersStart(a, s[1..]);
    MoreMembersStart(b, t[1..]);
    Peel("{", Member(a, s[0]), MoreMembers(a, s[1..]), r, Member(b, t[0]), MoreMembers(b, t[1..]), q);
    ReadMember(a, b, s[0], t[0], MoreMembers(a, s[1..]) + r, MoreMembers(b, t[1..]) + q);
    ReadMembers(a, b, s[1..], t[1..], r, q);
    assert s == [s[0]] + s[1..] && t == [t[0]] + t[1..];
  }

  lemma {:induction false} ReadMember(a: Json, b: Json, j: string, k: string, r: string, q: string)
    requires a.Obj? && b.Obj? && WellFormed(a) && WellFormed(b) && Delimited(r) && Delimited(q)
    requires j in a.fields && k in b.fields && Member(a, j) + r == Member(b, k) + q
    ensures j == k && a.fields[j] == b.fields[k] && r == q
    decreases a, 0, 0
  {
    hide Encode, Quote;
    var v, w := Encode(a.fields[j]), Encode(b.fields[k]);
    Peel("", Quote(j) + ":", v, r, Quote(k) + ":", w, q) by {
      assert "" + (Quote(j) + ":") + v == Member(a, j) && "" + (Quote(k) + ":") + w == Member(b, k);
    }
    Regroup(Quote(j), ":", v + r);
    Regroup(Quote(k), ":", w + q);
    ReadString(j, k, ":" + (v + r), ":" + (w + q));
    SplitAt(":", v + r, ":", w + q);
    ReadValue(a.fields[j], b.fields[k], r, q);
  }

  lemma {:induction false} ReadMembers(a: Json, b: Json, s: seq<string>, t: seq<string>, r: string, q: string)
    requires a.Obj? && b.Obj? && WellFormed(a) && WellFormed(b) && Delimited(r) && Delimited(q)
    requires (forall k :: k in s ==> k in a.fields) && (forall k :: k in t ==> k in b.fields)
    requires MoreMembers(a, s) + r == MoreMembers(b, t) + q
    ensures s == t && r == q && AgreeOn(a, b, s)
    decreases a, 0, |s|
  {
    hide Member;
    MoreMembersStart(a, s);
    MoreMembersStart(b, t);
    assert (MoreMembers(a, s) + r)[0] == MoreMembers(a, s)[0] && (MoreMembers(b, t) + q)[0] == MoreMembers(b, t)[0];
    if s == [] {
      SplitAt("}", r, "}", q);
    } else {
      MoreMembersStart(a, s[1..]);
      MoreMembersStart(b, t[1..]);
      Peel(",", Member(a, s[0]), MoreMembers(a, s[1..]), r, Member(b, t[0]), MoreMembers(b, t[1..]), q);
      ReadMember(a, b, s[0], t[0], MoreMembers(a, s[1..]) + r, MoreMembers(b, t[1..]) + q);
      ReadMembers(a, b, s[1..], t[1..], r, q);
      assert s == [s[0]] + s[1..] && t == [t[0]] + t[1..];
    }
  }

  // The text determines the tree.
  lemma EncodeIsInjective(a: Json, b: Json)
    requires WellFormed(a) && WellFormed(b) && Encode(a) == Encode(b)
    ensures a == b
  {
    assert Encode(a) + [] == Encode(a) && Encode(b) + [] == Encode(b);
    ReadValue(a, b, [], []);
  }
}
