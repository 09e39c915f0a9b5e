// Which errors the schema validator reports, and where (kafka/schema_validator.go).
module SchemaErrors {
  import opened Text
  import opened Json
  import opened Numbers
  import opened Schema
  import opened Wrappers

  // ---- Lengths -------------------------------------------------------------------------------------

  // The bytes of a character (RFC 3629, section 3).
  function Utf8(c: char): seq<int> {
    var n := c as int;
    if n <= 0x7F then [n]
    else if n <= 0x7FF then [0xC0 + n / 0x40, 0x80 + n % 0x40]
    else if n <= 0xFFFF then [0xE0 + n / 0x40 / 0x40, 0x80 + n / 0x40 % 0x40, 0x80 + n % 0x40]
    else [0xF0 + n / 0x40 / 0x40 / 0x40, 0x80 + n / 0x40 / 0x40 % 0x40, 0x80 + n / 0x40 % 0x40, 0x80 + n % 0x40]
  }

  function Utf8Text(s: string): seq<int> {
    if s == [] then [] else Utf8(s[0]) + Utf8Text(s[1..])
  }

  ghost predicate Continuation(b: int) { 0x80 <= b <= 0xBF }

  // The number that the bytes of one character encode (section 4 of the same).
  function Decoded(b: seq<int>): int
    requires 1 <= |b| <= 4
  {
    match |b|
    case 1 => b[0]
    case 2 => (b[0] - 0xC0) * 0x40 + (b[1] - 0x80)
    case 3 => ((b[0] - 0xE0) * 0x40 + (b[1] - 0x80)) * 0x40 + (b[2] - 0x80)
    case _ => (((b[0] - 0xF0) * 0x40 + (b[1] - 0x80)) * 0x40 + (b[2] - 0x80)) * 0x40 + (b[3] - 0x80)
  }

  // The first byte says how many there are, and the others continue it; no shorter form exists.
  lemma Utf8IsWellFormed(c: char)
    ensures var b := Utf8(c);
      && 1 <= |b| <= 4 && Decoded(b) == c as int && (forall i :: 1 <= i < |b| ==> Continuation(b[i]))
      && (|b| == 1 ==> 0 <= b[0] <= 0x7F)
      && (|b| == 2 ==> 0xC2 <= b[0] <= 0xDF)
      && (|b| == 3 ==> 0xE0 <= b[0] <= 0xEF && c as int >= 0x800)
      && (|b| == 4 ==> 0xF0 <= b[0] <= 0xF4 && c as int >= 0x10000)
  {
    var n := c as int;
    var x, y := n / 0x40, n / 0x40 / 0x40;
    assert n == x * 0x40 + n % 0x40 && x == y * 0x40 + x % 0x40;
    assert y == y / 0x40 * 0x40 + y % 0x40;
  }

  // Lengths are in bytes.
  lemma {:induction false} ByteLenIsUtf8(s: string)
    ensures ByteLen(s) == |Utf8Text(s)|
  {
    if s != [] { ByteLenIsUtf8(s[1..]); }
  }

  // ---- Faults --------------------------------------------------------------------------------------

  datatype Step = Member(name: string) | Item(i: nat)

  // The value itself has the problem.
  ghost predicate Fault(n: SchemaNode, v: Json, p: Problem) {
    if n.typ != "" && !HasType(v, n.typ) then p == WrongType(n.typ)
    else match p
      case WrongType(_) => false
      case FieldMissing(f) => v.Obj? && f in n.required && f !in v.fields
      case FieldNull(f) => v.Obj? && f in n.required && f in v.fields && v.fields[f] == Null
      case TooShort => v.Str? && n.minLength.Some? && |Utf8Text(v.s)| < n.minLength.value
      case TooLong => v.Str? && n.maxLength.Some? && |Utf8Text(v.s)| > n.maxLength.value
      case NotInEnum => v.Str? && n.enum != [] && v !in n.enum
      case TooSmall => v.Num? && n.minimum.Some? && NumValue(v.text) < n.minimum.value
      case TooLarge => v.Num? && n.maximum.Some? && NumValue(v.text) > n.maximum.value
  }

  // The value at the place has the problem: each step on the way leads from a value that has the type
  // it should have to one that its schema looks at. (Null members are not looked at, null items are.)
  ghost predicate FaultAt(n: SchemaNode, v: Json, at: seq<Step>, p: Problem)
    decreases at
  {
    if at == [] then Fault(n, v, p)
    else (n.typ != "" ==> HasType(v, n.typ)) && match at[0]
      case Member(k) =>
        && v.Obj? && k in v.fields && v.fields[k] != Null && k in n.properties && n.properties[k].Some?
        && FaultAt(n.properties[k].value, v.fields[k], at[1..], p)
      case Item(i) =>
        v.Arr? && i < |v.items| && n.items.Some? && FaultAt(n.items.value, v.items[i], at[1..], p)
  }

  // The text of a place below a path.
  function PathText(path: string, at: seq<Step>): string
    decreases |at|
  {
    if at == [] then path
    else match at[0]
      case Member(k) => PathText(if path == "" then k else path + "." + k, at[1..])
      case Item(i) => PathText(path + "[" + Itoa(i) + "]", at[1..])
  }

  // An error reports a fault at the text of its place, or at "(root)" when that is empty.
  ghost predicate ReportsFault(e: Error, n: SchemaNode, v: Json, path: string, at: seq<Step>) {
    FaultAt(n, v, at, e.problem) && e.path == if PathText(path, at) == "" then "(root)" else PathText(path, at)
  }

  lemma FaultOfMember(n: SchemaNode, v: Json, path: string, k: string, at: seq<Step>, e: Error)
    requires v.Obj? && (n.typ != "" ==> HasType(v, n.typ))
    requires k in v.fields && v.fields[k] != Null && k in n.properties && n.properties[k].Some?
    ensures ReportsFault(e, n.properties[k].value, v.fields[k], if path == "" then k else path + "." + k, at)
       <==> ReportsFault(e, n, v, path, [Member(k)] + at)
  {
    assert ([Member(k)] + at)[1..] == at;
    hide HasType, Itoa;
  }

  lemma FaultOfItem(n: SchemaNode, v: Json, path: string, i: nat, at: seq<Step>, e: Error)
    requires v.Arr? && (n.typ != "" ==> HasType(v, n.typ)) && i < |v.items| && n.items.Some?
    ensures ReportsFault(e, n.items.value, v.items[i], path + "[" + Itoa(i) + "]", at)
       <==> ReportsFault(e, n, v, path, [Item(i)] + at)
  {
    assert ([Item(i)] + at)[1..] == at;
    hide HasType, Itoa;
  }

  // ---- The reported errors -----------------------------------------------------------------------------

  lemma {:induction false} InPropertyErrors(n: SchemaNode, v: Json, path: string, keys: set<string>, e: Error)
    requires v.Obj? && keys <= n.properties.Keys
    ensures e in PropertyErrors(n, v, path, keys) <==> exists k :: k in keys && e in PropertyError(n, v, path, k)
    decreases |keys|
  {
    if keys != {} {
      var k := Least(keys);
      InPropertyErrors(n, v, path, keys - {k}, e);
      hide PropertyError;
      assert forall l :: l in keys <==> l == k || l in keys - {k};
    }
  }

  lemma {:induction false} InItemErrors(items: Option<SchemaNode>, v: Json, path: string, n: nat, e: Error)
    requires v.Arr? && n <= |v.items|
    ensures e in ItemErrors(items, v, path, n) <==>
      exists i :: n <= i < |v.items| && e in ErrorsOf(items, v.items[i], ItemPath(path, i))
    decreases |v.items| - n
  {
    hide ErrorsOf, ItemPath;
    if n < |v.items| {
      InItemErrors(items, v, path, n + 1, e);
      assert ItemErrors(items, v, path, n)
          == ErrorsOf(items, v.items[n], ItemPath(path, n)) + ItemErrors(items, v, path, n + 1);
      hide ItemErrors;
    }
  }

  lemma {:induction false} InRequiredErrors(required: seq<string>, v: Json, path: string, e: Error)
    requires v.Obj?
    ensures e in RequiredErrors(required, v, path) <==>
      && e.path == Schema.PathOrRoot(path)
      && match e.problem
         case FieldMissing(f) => f in required && f !in v.fields
         case FieldNull(f) => f in required && f in v.fields && v.fields[f] == Null
         case _ => false
    decreases |required|
  {
    hide Schema.PathOrRoot;
    if required != [] {
      var init, last := required[..|required| - 1], required[|required| - 1];
      assert required == init + [last];
      InRequiredErrors(init, v, path, e);
    }
  }

  // What is reported of the value itself, and of what is inside it.
  lemma {:induction false} ErrorsReportFaults(n: SchemaNode, v: Json, path: string, e: Error)
    ensures e in ErrorsOf(Some(n), v, path) <==> exists at :: ReportsFault(e, n, v, path, at)
    decreases v, 2
  {
    if n.typ != "" { MatchesTypeIff(n.typ, v); }
    if n.typ != "" && !HasType(v, n.typ) {
      WrongTypeOnly(n, v, path, e);
    } else {
      match v
      case Obj(_) => ObjectErrors(n, v, path, e);
      case Arr(_) => ArrayErrors(n, v, path, e);
      case _ => ScalarErrors(n, v, path, e);
    }
  }

  lemma WrongTypeOnly(n: SchemaNode, v: Json, path: string, e: Error)
    requires n.typ != "" && !HasType(v, n.typ)
    ensures e in ErrorsOf(Some(n), v, path) <==> exists at :: ReportsFault(e, n, v, path, at)
  {
    MatchesTypeIff(n.typ, v);
    hide MatchesType, HasType;
    assert ReportsFault(e, n, v, path, []) <==> e == Error(Schema.PathOrRoot(path), WrongType(n.typ));
    assert forall at :: ReportsFault(e, n, v, path, at) ==> at == [];
  }

  lemma ScalarErrors(n: SchemaNode, v: Json, path: string, e: Error)
    requires (n.typ != "" ==> HasType(v, n.typ)) && !v.Obj? && !v.Arr?
    ensures e in ErrorsOf(Some(n), v, path) <==> exists at :: ReportsFault(e, n, v, path, at)
  {
    NothingInside(n, v, path, e);
    ErrorsOfScalar(n, v, path);
    OwnFault(n, v, path, e);
    if v.Str? { TextFaults(n, v, path, e); }
    if v.Num? { NumberFaults(n, v, path, e); }
    assert !v.Str? && !v.Num? ==> !Fault(n, v, e.problem);
    hide *;
  }

  lemma NothingInside(n: SchemaNode, v: Json, path: string, e: Error)
    requires !v.Obj? && !v.Arr?
    ensures forall at :: ReportsFault(e, n, v, path, at) ==> at == []
  {
    hide HasType, Fault, PathText;
  }

  lemma OwnFault(n: SchemaNode, v: Json, path: string, e: Error)
    ensures ReportsFault(e, n, v, path, []) <==> Fault(n, v, e.problem) && e.path == Schema.PathOrRoot(path)
  {
    hide Fault;
  }

  lemma ErrorsOfScalar(n: SchemaNode, v: Json, path: string)
    requires (n.typ != "" ==> HasType(v, n.typ)) && !v.Obj? && !v.Arr?
    ensures ErrorsOf(Some(n), v, path)
         == if v.Str? then StringErrors(n, v.s, path) else if v.Num? then NumberErrors(n, v.text, path) else multiset{}
  {
    if n.typ != "" { MatchesTypeIff(n.typ, v); }
    hide MatchesType, HasType, StringErrors, NumberErrors;
  }

  lemma InWhen(c: bool, path: string, p: Problem, e: Error)
    ensures e in When(c, path, p) <==> c && e == Error(Schema.PathOrRoot(path), p)
  {
    hide Schema.PathOrRoot;
  }

  lemma TextFaults(n: SchemaNode, v: Json, path: string, e: Error)
    requires (n.typ != "" ==> HasType(v, n.typ)) && v.Str?
    ensures e in StringErrors(n, v.s, path) <==> Fault(n, v, e.problem) && e.path == Schema.PathOrRoot(path)
  {
    ByteLenIsUtf8(v.s);
    TextFaultIs(n, v, e.problem);
    InStringErrors(n, v.s, path, e);
    hide Fault, HasType, StringErrors, ByteLen, Utf8Text, Schema.PathOrRoot;
  }

  lemma TextFaultIs(n: SchemaNode, v: Json, p: Problem)
    requires (n.typ != "" ==> HasType(v, n.typ)) && v.Str?
    ensures Fault(n, v, p) <==>
      || (p == TooShort && n.minLength.Some? && |Utf8Text(v.s)| < n.minLength.value)
      || (p == TooLong && n.maxLength.Some? && |Utf8Text(v.s)| > n.maxLength.value)
      || (p == NotInEnum && n.enum != [] && v !in n.enum)
  {
    hide HasType, Utf8Text;
  }

  lemma InStringErrors(n: SchemaNode, text: string, path: string, e: Error)
    ensures e in StringErrors(n, text, path) <==>
      && e.path == Schema.PathOrRoot(path)
      && (|| (e.problem == TooShort && n.minLength.Some? && ByteLen(text) < n.minLength.value)
          || (e.problem == TooLong && n.maxLength.Some? && ByteLen(text) > n.maxLength.value)
          || (e.problem == NotInEnum && n.enum != [] && Str(text) !in n.enum))
  {
    var short := n.minLength.Some? && ByteLen(text) < n.minLength.value;
    var long := n.maxLength.Some? && ByteLen(text) > n.maxLength.value;
    var unlisted := n.enum != [] && Str(text) !in n.enum;
    InWhen(short, path, TooShort, e);
    InWhen(long, path, TooLong, e);
    InWhen(unlisted, path, NotInEnum, e);
    InSum(When(short, path, TooShort), When(long, path, TooLong), When(unlisted, path, NotInEnum), e);
    hide ByteLen, When, Schema.PathOrRoot;
  }

  lemma InSum(a: multiset<Error>, b: multiset<Error>, c: multiset<Error>, e: Error)
    ensures e in a + b + c <==> e in a || e in b || e in c
  {
  }

  lemma NumberFaults(n: SchemaNode, v: Json, path: string, e: Error)
    requires (n.typ != "" ==> HasType(v, n.typ)) && v.Num?
    ensures e in NumberErrors(n, v.text, path) <==> Fault(n, v, e.problem) && e.path == Schema.PathOrRoot(path)
  {
    NumberFaultIs(n, v, e.problem);
    InNumberErrors(n, v.text, path, e);
    hide Fault, HasType, NumberErrors, NumValue, Schema.PathOrRoot;
  }

  lemma NumberFaultIs(n: SchemaNode, v: Json, p: Problem)
    requires (n.typ != "" ==> HasType(v, n.typ)) && v.Num?
    ensures Fault(n, v, p) <==>
      || (p == TooSmall && n.minimum.Some? && NumValue(v.text) < n.minimum.value)
      || (p == TooLarge && n.maximum.Some? && NumValue(v.text) > n.maximum.value)
  {
    hide HasType, NumValue;
  }

  lemma InNumberErrors(n: SchemaNode, text: string, path: string, e: Error)
    ensures e in NumberErrors(n, text, path) <==>
      && e.path == Schema.PathOrRoot(path)
      && (|| (e.problem == TooSmall && n.minimum.Some? && NumValue(text) < n.minimum.value)
          || (e.problem == TooLarge && n.maximum.Some? && NumValue(text) > n.maximum.value))
  {
    var small := n.minimum.Some? && NumValue(text) < n.minimum.value;
    var large := n.maximum.Some? && NumValue(text) > n.maximum.value;
    InWhen(small, path, TooSmall, e);
    InWhen(large, path, TooLarge, e);
    hide NumValue, When, Schema.PathOrRoot;
  }

  lemma {:induction false} ObjectErrors(n: SchemaNode, v: Json, path: string, e: Error)
    requires (n.typ != "" ==> HasType(v, n.typ)) && v.Obj?
    ensures e in ErrorsOf(Some(n), v, path) <==> exists at :: ReportsFault(e, n, v, path, at)
    decreases v, 1
  {
    ErrorsOfObject(n, v, path);
    InRequiredErrors(n.required, v, path, e);
    InPropertyErrors(n, v, path, n.properties.Keys, e);
    OwnObjectFault(n, v, path, e);
    FirstStepIsMember(n, v, path, e);
    hide *;
    forall k | k in n.properties
      ensures e in PropertyError(n, v, path, k) <==> exists at :: ReportsFault(e, n, v, path, [Member(k)] + at)
    {
      MemberErrors(n, v, path, k, e);
    }
  }

  lemma ErrorsOfObject(n: SchemaNode, v: Json, path: string)
    requires (n.typ != "" ==> HasType(v, n.typ)) && v.Obj?
    ensures ErrorsOf(Some(n), v, path)
         == RequiredErrors(n.required, v, path) + PropertyErrors(n, v, path, n.properties.Keys)
  {
    if n.typ != "" { MatchesTypeIff(n.typ, v); }
    hide MatchesType, HasType, RequiredErrors, PropertyErrors;
  }

  lemma OwnObjectFault(n: SchemaNode, v: Json, path: string, e: Error)
    requires (n.typ != "" ==> HasType(v, n.typ)) && v.Obj?
    ensures ReportsFault(e, n, v, path, []) <==>
      && e.path == Schema.PathOrRoot(path)
      && match e.problem
         case FieldMissing(f) => f in n.required && f !in v.fields
         case FieldNull(f) => f in n.required && f in v.fields && v.fields[f] == Null
         case _ => false
  {
    hide HasType;
  }

  lemma {:induction false} MemberErrors(n: SchemaNode, v: Json, path: string, k: string, e: Error)
    requires (n.typ != "" ==> HasType(v, n.typ)) && v.Obj? && k in n.properties
    ensures e in PropertyError(n, v, path, k) <==> exists at :: ReportsFault(e, n, v, path, [Member(k)] + at)
    decreases v, 0
  {
    if k in v.fields && v.fields[k] != Null && n.properties[k].Some? {
      var child := PathJoin(path, k);
      ErrorsReportFaults(n.properties[k].value, v.fields[k], child, e);
      forall at
        ensures ReportsFault(e, n.properties[k].value, v.fields[k], child, at)
           <==> ReportsFault(e, n, v, path, [Member(k)] + at)
      {
        FaultOfMember(n, v, path, k, at, e);
      }
      hide ErrorsOf, ReportsFault, HasType;
    } else {
      forall at ensures !FaultAt(n, v, [Member(k)] + at, e.problem) {
        assert ([Member(k)] + at)[0] == Member(k);
      }
      hide HasType;
    }
  }

  lemma FirstStepIsMember(n: SchemaNode, v: Json, path: string, e: Error)
    requires v.Obj?
    ensures (exists at :: ReportsFault(e, n, v, path, at)) <==>
      ReportsFault(e, n, v, path, [])
      || exists k :: k in n.properties && exists at :: ReportsFault(e, n, v, path, [Member(k)] + at)
  {
    hide HasType, PathText;
    forall at: seq<Step> | at != [] && ReportsFault(e, n, v, path, at)
      ensures at[0].Member? && at[0].name in n.properties && at == [Member(at[0].name)] + at[1..]
    {
    }
    hide ReportsFault;
  }

  lemma {:induction false} ArrayErrors(n: SchemaNode, v: Json, path: string, e: Error)
    requires (n.typ != "" ==> HasType(v, n.typ)) && v.Arr?
    ensures e in ErrorsOf(Some(n), v, path) <==> exists at :: ReportsFault(e, n, v, path, at)
    decreases v, 1
  {
    ErrorsOfArray(n, v, path);
    InItemErrors(n.items, v, path, 0, e);
    FirstStepIsItem(n, v, path, e);
    hide *;
    forall i | 0 <= i < |v.items|
      ensures e in ErrorsOf(n.items, v.items[i], ItemPath(path, i)) <==>
        exists at :: ReportsFault(e, n, v, path, [Item(i)] + at)
    {
      OneItemErrors(n, v, path, i, e);
    }
  }

  lemma ErrorsOfArray(n: SchemaNode, v: Json, path: string)
    requires (n.typ != "" ==> HasType(v, n.typ)) && v.Arr?
    ensures ErrorsOf(Some(n), v, path) == ItemErrors(n.items, v, path, 0)
  {
    if n.typ != "" { MatchesTypeIff(n.typ, v); }
    hide MatchesType, HasType, ItemErrors;
  }

  lemma {:induction false} OneItemErrors(n: SchemaNode, v: Json, path: string, i: nat, e: Error)
    requires (n.typ != "" ==> HasType(v, n.typ)) && v.Arr? && i < |v.items|
    ensures e in ErrorsOf(n.items, v.items[i], ItemPath(path, i)) <==>
      exists at :: ReportsFault(e, n, v, path, [Item(i)] + at)
    decreases v, 0
  {
    if n.items.Some? {
      ErrorsReportFaults(n.items.value, v.items[i], ItemPath(path, i), e);
      forall at
        ensures ReportsFault(e, n.items.value, v.items[i], ItemPath(path, i), at)
           <==> ReportsFault(e, n, v, path, [Item(i)] + at)
      {
        FaultOfItem(n, v, path, i, at, e);
      }
      hide ErrorsOf, ReportsFault, HasType, ItemPath;
    } else {
      forall at ensures !FaultAt(n, v, [Item(i)] + at, e.problem) {
        assert ([Item(i)] + at)[0] == Item(i);
      }
      hide HasType;
    }
  }

  lemma FirstStepIsItem(n: SchemaNode, v: Json, path: string, e: Error)
    requires (n.typ != "" ==> HasType(v, n.typ)) && v.Arr?
    ensures (exists at :: ReportsFault(e, n, v, path, at)) <==>
      exists i :: 0 <= i < |v.items| && exists at :: ReportsFault(e, n, v, path, [Item(i)] + at)
  {
    hide HasType, PathText;
    forall at: seq<Step> | ReportsFault(e, n, v, path, at)
      ensures at != [] && at[0].Item? && at[0].i < |v.items| && at == [Item(at[0].i)] + at[1..]
    {
    }
    hide ReportsFault;
  }
}
