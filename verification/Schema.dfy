// The schema validator (kafka/schema_validator.go): the subset of JSON Schema it knows, how it
// collects errors, and what a value has to satisfy to have none.
module Schema {
  import opened Text
  import opened Json
  import opened Numbers
  import opened Wrappers

  // A parsed schema. A property may be the JSON null, which checks nothing. Members that are
  // parsed but never used (additionalProperties, title) are left out.
  datatype SchemaNode = SchemaNode(
    typ: string, required: seq<string>, properties: map<string, Option<SchemaNode>>,
    items: Option<SchemaNode>, enum: seq<Json>,
    minLength: Option<int>, maxLength: Option<int>, minimum: Option<real>, maximum: Option<real>)

  // ---- Numbers and lengths --------------------------------------------------------------------

  // n == float64(int64(n)): whole, and within the range of int64 (where the conversion is
  // defined). The lower bound is the shortest text of -2^63, the upper one 2^63.
  predicate IsInt64(v: real) {
    v == v.Floor as real && -9223372036854776000.0 <= v < 9223372036854775808.0
  }

  // len() counts the bytes of the UTF-8 encoding.
  function ByteLen(s: string): nat {
    if s == [] then 0 else CharLen(s[0]) + ByteLen(s[1..])
  }

  function CharLen(c: char): nat {
    var n := c as int;
    if n < 0x80 then 1 else if n < 0x800 then 2 else if n < 0x10000 then 3 else 4
  }

  // ---- Types -----------------------------------------------------------------------------------

  predicate MatchesType(expected: string, v: Json) {
    if v == Null then expected == "null" || expected == ""
    else if expected == "object" then v.Obj?
    else if expected == "array" then v.Arr?
    else if expected == "string" then v.Str?
    else if expected == "number" then v.Num?
    else if expected == "integer" then v.Num? && IsInt64(NumValue(v.text))
    else if expected == "boolean" then v.Bool?
    else expected != "null"
  }

  // The type names of a value (JSON Schema Validation 2020-12, section 6.1.1).
  function TypesOf(v: Json): set<string> {
    match v
    case Null => {"null"}
    case Bool(_) => {"boolean"}
    case Str(_) => {"string"}
    case Arr(_) => {"array"}
    case Obj(_) => {"object"}
    case Num(text) =>
      if exists i: int :: -9223372036854776000 <= i < 9223372036854775808 && IsInteger(NumValue(text), i)
      then {"number", "integer"} else {"number"}
  }

  predicate IsInteger(x: real, i: int) { x == i as real }

  // A type name that is none of those takes any value but null.
  predicate HasType(v: Json, name: string) {
    if name in {"null", "boolean", "string", "array", "object", "number", "integer"} then name in TypesOf(v)
    else v != Null
  }

  lemma MatchesTypeIff(name: string, v: Json)
    requires name != ""
    ensures MatchesType(name, v) <==> HasType(v, name)
  {
    if v.Num? { Int64Iff(NumValue(v.text)); }
    hide NumValue, IsInt64;
  }

  lemma Int64Iff(x: real)
    ensures IsInt64(x) <==>
      exists i: int :: -9223372036854776000 <= i < 9223372036854775808 && IsInteger(x, i)
  {
    if IsInt64(x) { assert IsInteger(x, x.Floor); }
  }

  // ---- The errors of a value --------------------------------------------------------------------

  datatype Problem =
    | WrongType(expected: string)
    | FieldMissing(field: string)
    | FieldNull(field: string)
    | TooShort | TooLong | NotInEnum | TooSmall | TooLarge

  datatype Error = Error(path: string, problem: Problem)

  function PathOrRoot(path: string): string { if path == "" then "(root)" else path }

  function PathJoin(base: string, segment: string): string {
    if base == "" then segment else base + "." + segment
  }

  function ItemPath(base: string, i: nat): string { base + "[" + Itoa(i) + "]" }

  function When(c: bool, path: string, p: Problem): multiset<Error> {
    if c then multiset{Error(PathOrRoot(path), p)} else multiset{}
  }

  // Errors do not come in a fixed order: properties are visited in map order.
  function ErrorsOf(node: Option<SchemaNode>, v: Json, path: string): multiset<Error>
    decreases v, 1, 0
  {
    if node.None? then multiset{}
    else
      var n := node.value;
      if n.typ != "" && !MatchesType(n.typ, v) then When(true, path, WrongType(n.typ))
      else match v
        case Obj(_) => RequiredErrors(n.required, v, path) + PropertyErrors(n, v, path, n.properties.Keys)
        case Arr(items) => ItemErrors(n.items, v, path, 0)
        case Str(s) => StringErrors(n, s, path)
        case Num(text) => NumberErrors(n, text, path)
        case _ => multiset{}
  }

  function RequiredError(field: string, v: Json, path: string): multiset<Error>
    requires v.Obj?
  {
    if field !in v.fields then When(true, path, FieldMissing(field))
    else When(v.fields[field] == Null, path, FieldNull(field))
  }

  function RequiredErrors(required: seq<string>, v: Json, path: string): multiset<Error>
    requires v.Obj?
  {
    if required == [] then multiset{}
    else RequiredErrors(required[..|required| - 1], v, path) + RequiredError(required[|required| - 1], v, path)
  }

  function PropertyError(n: SchemaNode, v: Json, path: string, k: string): multiset<Error>
    requires v.Obj? && k in n.properties
    decreases v, 0, 0
  {
    if k in v.fields && v.fields[k] != Null then ErrorsOf(n.properties[k], v.fields[k], PathJoin(path, k))
    else multiset{}
  }

  function PropertyErrors(n: SchemaNode, v: Json, path: string, keys: set<string>): multiset<Error>
    requires v.Obj? && keys <= n.properties.Keys
    decreases v, 0, |keys|
  {
    if keys == {} then multiset{}
    else
      var k := Least(keys);
      PropertyError(n, v, path, k) + PropertyErrors(n, v, path, keys - {k})
  }

  function ItemErrors(items: Option<SchemaNode>, v: Json, path: string, i: nat): multiset<Error>
    requires v.Arr? && i <= |v.items|
    decreases v, 0, |v.items| - i
  {
    if i == |v.items| then multiset{}
    else ErrorsOf(items, v.items[i], ItemPath(path, i)) + ItemErrors(items, v, path, i + 1)
  }

  function StringErrors(n: SchemaNode, s: string, path: string): multiset<Error> {
    When(n.minLength.Some? && ByteLen(s) < n.minLength.value, path, TooShort)
    + When(n.maxLength.Some? && ByteLen(s) > n.maxLength.value, path, TooLong)
    + When(n.enum != [] && Str(s) !in n.enum, path, NotInEnum)
  }

  function NumberErrors(n: SchemaNode, text: string, path: string): multiset<Error> {
    When(n.minimum.Some? && NumValue(text) < n.minimum.value, path, TooSmall)
    + When(n.maximum.Some? && NumValue(text) > n.maximum.value, path, TooLarge)
  }

  // The keys of a map can be visited in any order.
  lemma {:induction false} AnyKeyFirst(n: SchemaNode, v: Json, path: string, keys: set<string>, k: string)
    requires v.Obj? && keys <= n.properties.Keys && k in keys
    ensures PropertyErrors(n, v, path, keys) == PropertyError(n, v, path, k) + PropertyErrors(n, v, path, keys - {k})
    decreases |keys|
  {
    hide PropertyError;
    var l := Least(keys);
    if l != k {
      AnyKeyFirst(n, v, path, keys - {l}, k);
      AnyKeyFirst(n, v, path, keys - {k}, l);
      assert keys - {l} - {k} == keys - {k} - {l};
    }
  }

  // ---- validateNode ---------------------------------------------------------------------------------

  method ValidateNode(node: Option<SchemaNode>, v: Json, path: string) returns (errs: seq<Error>)
    ensures multiset(errs) == ErrorsOf(node, v, path)
    decreases v, 1
  {
    hide MatchesType, StringErrors, NumberErrors, RequiredErrors, PropertyErrors, PathOrRoot;
    if node.None? { return []; }
    var n := node.value;
    if n.typ != "" {
      if !MatchesType(n.typ, v) {
        return [Error(PathOrRoot(path), WrongType(n.typ))];
      }
    }
    match v {
      case Obj(fields) =>
        var required := ValidateRequired(n, v, path);
        var properties := ValidateProperties(n, v, path);
        errs := required + properties;
      case Arr(items) =>
        errs := [];
        if n.items.Some? {
          errs := ValidateItems(n, v, path);
        } else {
          NoItemSchema(v, path, 0);
        }
      case Str(s) => errs := ValidateString(n, s, path);
      case Num(text) => errs := ValidateNumber(n, text, path);
      case _ => errs := [];
    }
  }

  lemma OneMoreIf(c: bool, errs: seq<Error>, path: string, p: Problem)
    ensures multiset(if c then errs + [Error(PathOrRoot(path), p)] else errs) == multiset(errs) + When(c, path, p)
  {
    hide PathOrRoot;
  }

  lemma ThreeTerms(errs: multiset<Error>, a: multiset<Error>, b: multiset<Error>, c: multiset<Error>)
    requires errs == multiset{} + a + b + c
    ensures errs == a + b + c
  {
    assert multiset{} + a == a;
  }

  method ValidateString(n: SchemaNode, s: string, path: string) returns (errs: seq<Error>)
    ensures multiset(errs) == StringErrors(n, s, path)
  {
    var short := n.minLength.Some? && ByteLen(s) < n.minLength.value;
    var long := n.maxLength.Some? && ByteLen(s) > n.maxLength.value;
    var unlisted := n.enum != [] && Str(s) !in n.enum;
    ghost var a, b, c := When(short, path, TooShort), When(long, path, TooLong), When(unlisted, path, NotInEnum);
    assert StringErrors(n, s, path) == a + b + c;
    hide *;
    errs := [];
    OneMoreIf(short, errs, path, TooShort);
    if short {
      errs := errs + [Error(PathOrRoot(path), TooShort)];
    }
    OneMoreIf(long, errs, path, TooLong);
    if long {
      errs := errs + [Error(PathOrRoot(path), TooLong)];
    }
    OneMoreIf(unlisted, errs, path, NotInEnum);
    if unlisted {
      errs := errs + [Error(PathOrRoot(path), NotInEnum)];
    }
    ThreeTerms(multiset(errs), a, b, c);
  }

  method ValidateNumber(n: SchemaNode, text: string, path: string) returns (errs: seq<Error>)
    ensures multiset(errs) == NumberErrors(n, text, path)
  {
    hide NumValue, PathOrRoot, When;
    errs := [];
    OneMoreIf(n.minimum.Some? && NumValue(text) < n.minimum.value, errs, path, TooSmall);
    if n.minimum.Some? && NumValue(text) < n.minimum.value {
      errs := errs + [Error(PathOrRoot(path), TooSmall)];
    }
    OneMoreIf(n.maximum.Some? && NumValue(text) > n.maximum.value, errs, path, TooLarge);
    if n.maximum.Some? && NumValue(text) > n.maximum.value {
      errs := errs + [Error(PathOrRoot(path), TooLarge)];
    }
  }

  lemma {:induction false} NoItemSchema(v: Json, path: string, i: nat)
    requires v.Arr? && i <= |v.items|
    ensures ItemErrors(None, v, path, i) == multiset{}
    decreases |v.items| - i
  {
    if i < |v.items| { NoItemSchema(v, path, i + 1); }
  }

  lemma NextRequired(required: seq<string>, v: Json, path: string, i: nat)
    requires v.Obj? && i < |required|
    ensures RequiredErrors(required[..i + 1], v, path)
         == RequiredErrors(required[..i], v, path) + RequiredError(required[i], v, path)
  {
    assert required[..i + 1][..i] == required[..i];
  }

  method ValidateRequired(n: SchemaNode, v: Json, path: string) returns (errs: seq<Error>)
    requires v.Obj?
    ensures multiset(errs) == RequiredErrors(n.required, v, path)
  {
    errs := [];
    var i := 0;
    assert n.required[..0] == [];
    while i < |n.required|
      invariant 0 <= i <= |n.required|
      invariant multiset(errs) == RequiredErrors(n.required[..i], v, path)
    {
      var r := n.required[i];
      NextRequired(n.required, v, path, i);
      hide RequiredErrors;
      i := i + 1;
      if r !in v.fields {
        errs := errs + [Error(PathOrRoot(path), FieldMissing(r))];
        continue;
      }
      if v.fields[r] == Null {
        errs := errs + [Error(PathOrRoot(path), FieldNull(r))];
      }
    }
    assert n.required[..i] == n.required;
  }

  method ValidateProperties(n: SchemaNode, v: Json, path: string) returns (errs: seq<Error>)
    requires v.Obj?
    ensures multiset(errs) == PropertyErrors(n, v, path, n.properties.Keys)
    decreases v, 0
  {
    errs := [];
    var todo := n.properties.Keys;
    while todo != {}
      invariant todo <= n.properties.Keys
      invariant multiset(errs) + PropertyErrors(n, v, path, todo) == PropertyErrors(n, v, path, n.properties.Keys)
      decreases todo
    {
      var k :| k in todo;
      AnyKeyFirst(n, v, path, todo, k);
      if k in v.fields && v.fields[k] != Null {
        var more := ValidateNode(n.properties[k], v.fields[k], PathJoin(path, k));
        errs := errs + more;
      }
      todo := todo - {k};
    }
  }

  method ValidateItems(n: SchemaNode, v: Json, path: string) returns (errs: seq<Error>)
    requires v.Arr? && n.items.Some?
    ensures multiset(errs) == ItemErrors(n.items, v, path, 0)
    decreases v, 0
  {
    hide ErrorsOf, ItemPath;
    errs := [];
    var i := 0;
    while i < |v.items|
      invariant 0 <= i <= |v.items|
      invariant multiset(errs) + ItemErrors(n.items, v, path, i) == ItemErrors(n.items, v, path, 0)
    {
      var more := ValidateNode(n.items, v.items[i], ItemPath(path, i));
      errs := errs + more;
      i := i + 1;
    }
  }

  // ---- Conformance ------------------------------------------------------------------------------------

  // What a value has to satisfy (JSON Schema Validation 2020-12, sections 6.1.1, 6.1.2, 6.2, 6.3
  // and 6.5.3, with two differences: a required member must also not be null, and a null
  // optional member is not looked at).
  predicate Conforms(n: SchemaNode, v: Json)
    decreases v
  {
    && (n.typ != "" ==> HasType(v, n.typ))
    && (v.Obj? ==>
          && (forall r :: r in n.required ==> r in v.fields && v.fields[r] != Null)
          && forall k | k in n.properties && n.properties[k].Some? && k in v.fields && v.fields[k] != Null ::
               Conforms(n.properties[k].value, v.fields[k]))
    && (v.Arr? && n.items.Some? ==> forall i | 0 <= i < |v.items| :: Conforms(n.items.value, v.items[i]))
    && (v.Str? ==> StringConforms(n, v.s))
    && (v.Num? ==> NumberConforms(n, v.text))
  }

  predicate StringConforms(n: SchemaNode, s: string) {
    && (n.minLength.Some? ==> ByteLen(s) >= n.minLength.value)
    && (n.maxLength.Some? ==> ByteLen(s) <= n.maxLength.value)
    && (n.enum != [] ==> Str(s) in n.enum)
  }

  predicate NumberConforms(n: SchemaNode, text: string) {
    && (n.minimum.Some? ==> NumValue(text) >= n.minimum.value)
    && (n.maximum.Some? ==> NumValue(text) <= n.maximum.value)
  }

  lemma NoScalarErrors(n: SchemaNode, text: string, path: string)
    ensures StringErrors(n, text, path) == multiset{} <==> StringConforms(n, text)
    ensures NumberErrors(n, text, path) == multiset{} <==> NumberConforms(n, text)
  {
    hide NumValue, ByteLen;
  }

  // There are no errors exactly when the value conforms.
  lemma {:induction false} NoErrorsIffConforms(n: SchemaNode, v: Json, path: string)
    ensures ErrorsOf(Some(n), v, path) == multiset{} <==> Conforms(n, v)
    decreases v, 1
  {
    hide MatchesType, HasType, TypesOf, StringErrors, NumberErrors, StringConforms, NumberConforms,
         RequiredErrors, PropertyErrors, ItemErrors, PathOrRoot;
    if n.typ != "" { MatchesTypeIff(n.typ, v); }
    match v
    case Str(s) => NoScalarErrors(n, s, path);
    case Num(text) => NoScalarErrors(n, text, path);
    case Obj(_) =>
      NoRequiredErrors(n.required, v, path);
      NoPropertyErrors(n, v, path, n.properties.Keys);
      SumIsEmpty(RequiredErrors(n.required, v, path), PropertyErrors(n, v, path, n.properties.Keys));
    case Arr(_) => NoItemErrors(n.items, v, path, 0);
    case _ =>
  }

  lemma SumIsEmpty(a: multiset<Error>, b: multiset<Error>)
    ensures a + b == multiset{} <==> a == multiset{} && b == multiset{}
  {
    if a != multiset{} { var e :| e in a; assert e in a + b; }
    if b != multiset{} { var e :| e in b; assert e in a + b; }
  }

  lemma {:induction false} NoRequiredErrors(required: seq<string>, v: Json, path: string)
    requires v.Obj?
    ensures RequiredErrors(required, v, path) == multiset{}
       <==> forall r :: r in required ==> r in v.fields && v.fields[r] != Null
    decreases |required|
  {
    if required != [] {
      var init, last := required[..|required| - 1], required[|required| - 1];
      assert required == init + [last];
      NoRequiredErrors(init, v, path);
    }
  }

  ghost predicate PropertyConforms(n: SchemaNode, v: Json, k: string)
    requires v.Obj? && k in n.properties
  {
    n.properties[k].Some? && k in v.fields && v.fields[k] != Null ==> Conforms(n.properties[k].value, v.fields[k])
  }

  lemma {:induction false} NoPropertyErrors(n: SchemaNode, v: Json, path: string, keys: set<string>)
    requires v.Obj? && keys <= n.properties.Keys
    ensures PropertyErrors(n, v, path, keys) == multiset{} <==> forall k :: k in keys ==> PropertyConforms(n, v, k)
    decreases v, 0, |keys|
  {
    if keys != {} {
      var k := Least(keys);
      assert keys == keys - {k} + {k};
      NoPropertyErrors(n, v, path, keys - {k});
      assert PropertyError(n, v, path, k) == multiset{} <==> PropertyConforms(n, v, k) by {
        if n.properties[k].Some? && k in v.fields && v.fields[k] != Null {
          NoErrorsIffConforms(n.properties[k].value, v.fields[k], PathJoin(path, k));
        }
      }
      hide PropertyConforms, PropertyError;
    }
  }

  lemma {:induction false} NoItemErrors(items: Option<SchemaNode>, v: Json, path: string, i: nat)
    requires v.Arr? && i <= |v.items|
    ensures ItemErrors(items, v, path, i) == multiset{}
       <==> (items.Some? ==> forall j :: i <= j < |v.items| ==> Conforms(items.value, v.items[j]))
    decreases v, 0, |v.items| - i
  {
    if i < |v.items| {
      NoItemErrors(items, v, path, i + 1);
      if items.Some? { NoErrorsIffConforms(items.value, v.items[i], ItemPath(path, i)); }
      var first, rest := ErrorsOf(items, v.items[i], ItemPath(path, i)), ItemErrors(items, v, path, i + 1);
      assert items.None? ==> first == multiset{};
      SumIsEmpty(first, rest);
      assert ItemErrors(items, v, path, i) == first + rest;
      hide ErrorsOf, ItemErrors, Conforms;
    }
  }
}
