// The cache of compiled schemas, used by validations and registrations that run side by side
// (kafka/schema_validator.go, kafka/event_taxonomy.go). Parsing a schema text is a parameter:
// a function that gives the schema or fails.
module SchemaCache {
  import opened Json
  import opened Schema
  import opened Wrappers

  type Parser = string -> Option<SchemaNode>

  datatype Compiled = Compiled(src: string, root: SchemaNode)

  type Cache = map<string, Compiled>

  // Every entry holds the parse of its own source.
  ghost predicate Coherent(parse: Parser, cache: Cache) {
    forall e :: e in cache ==> parse(cache[e].src) == Some(cache[e].root)
  }

  datatype Verdict = NotRegistered | SchemaBroken | Rejected(errors: multiset<Error>) | Accepted

  function Judge(root: SchemaNode, payload: Json): Verdict {
    var errors := ErrorsOf(Some(root), payload, "");
    if errors == multiset{} then Accepted else Rejected(errors)
  }

  // The verdict of a validator that has no cache.
  function Uncached(parse: Parser, src: string, payload: Json): Verdict {
    match parse(src)
    case None => SchemaBroken
    case Some(root) => Judge(root, payload)
  }

  function VerdictOn(parse: Parser, found: Option<string>, payload: Json): Verdict {
    if found.None? then NotRegistered else Uncached(parse, found.value, payload)
  }

  lemma UncachedAcceptsIff(parse: Parser, src: string, payload: Json)
    ensures Uncached(parse, src, payload) == Accepted <==> parse(src).Some? && Conforms(parse(src).value, payload)
  {
    if parse(src).Some? { NoErrorsIffConforms(parse(src).value, payload, ""); }
  }

  class Compiler {
    const parse: Parser
    var compiled: Cache

    constructor (parse: Parser)
      ensures this.parse == parse && compiled == map[]
    {
      this.parse := parse;
      compiled := map[];
    }

    method CompileSchema(eventType: string, src: string) returns (root: Option<SchemaNode>)
      requires Coherent(parse, compiled)
      modifies this`compiled
      ensures Coherent(parse, compiled)
      ensures root == parse(src)
      ensures if root.Some? then eventType in compiled && compiled[eventType] == Compiled(src, root.value)
        else compiled == old(compiled)
      ensures forall e :: e in old(compiled) && e != eventType ==> e in compiled && compiled[e] == old(compiled)[e]
    {
      if eventType in compiled && compiled[eventType].src == src {
        return Some(compiled[eventType].root);
      }
      root := parse(src);
      if root.Some? {
        compiled := compiled[eventType := Compiled(src, root.value)];
      }
    }

    // `schema` is what the registry holds for the event type.
    method ValidateRawPayload(eventType: string, schema: Option<string>, payload: Json) returns (verdict: Verdict)
      requires Coherent(parse, compiled)
      modifies this`compiled
      ensures Coherent(parse, compiled)
      ensures verdict == VerdictOn(parse, schema, payload)
      ensures schema.None? ==> verdict == NotRegistered
      ensures schema.Some? && parse(schema.value).None? ==> verdict == SchemaBroken
      ensures schema.Some? && parse(schema.value).Some? ==>
        var root := parse(schema.value).value;
        verdict == if Conforms(root, payload) then Accepted else Rejected(ErrorsOf(Some(root), payload, ""))
    {
      if schema.None? { return NotRegistered; }
      var root := CompileSchema(eventType, schema.value);
      if root.None? { return SchemaBroken; }
      var errs := ValidateNode(root, payload, "");
      NoErrorsIffConforms(root.value, payload, "");
      if |errs| > 0 {
        assert |multiset(errs)| > 0;
        return Rejected(multiset(errs));
      }
      return Accepted;
    }
  }

  // ---- Interleavings -------------------------------------------------------------------------------

  // Where one validation is: it has looked up its schema, it has missed the cache, or it is done.
  // Lookups, cache reads and cache writes each hold a lock, so each is one step.
  datatype Caller =
    | LookedUp(eventType: string, src: string, payload: Json)
    | Missed(eventType: string, src: string, payload: Json)
    | Done(found: Option<string>, payload: Json, verdict: Verdict)

  datatype State = State(registry: map<string, string>, cache: Cache, callers: map<nat, Caller>)

  function Init(registry: map<string, string>): State { State(registry, map[], map[]) }

  datatype Step =
    | Register(eventType: string, src: string)
    | Begin(caller: nat, eventType: string, payload: Json)
    | ReadCache(caller: nat)
    | Store(caller: nat)

  function Next(parse: Parser, s: State, step: Step): State {
    match step
    case Register(eventType, src) => s.(registry := s.registry[eventType := src])
    case Begin(c, eventType, payload) =>
      if c in s.callers then s
      else if eventType !in s.registry then s.(callers := s.callers[c := Done(None, payload, NotRegistered)])
      else s.(callers := s.callers[c := LookedUp(eventType, s.registry[eventType], payload)])
    case ReadCache(c) =>
      if c !in s.callers || !s.callers[c].LookedUp? then s
      else
        var LookedUp(eventType, src, payload) := s.callers[c];
        if eventType in s.cache && s.cache[eventType].src == src
        then s.(callers := s.callers[c := Done(Some(src), payload, Judge(s.cache[eventType].root, payload))])
        else s.(callers := s.callers[c := Missed(eventType, src, payload)])
    case Store(c) =>
      if c !in s.callers || !s.callers[c].Missed? then s
      else
        var Missed(eventType, src, payload) := s.callers[c];
        match parse(src)
        case None => s.(callers := s.callers[c := Done(Some(src), payload, SchemaBroken)])
        case Some(root) =>
          s.(cache := s.cache[eventType := Compiled(src, root)],
             callers := s.callers[c := Done(Some(src), payload, Judge(root, payload))])
  }

  function Run(parse: Parser, s: State, steps: seq<Step>): State
    decreases |steps|
  {
    if steps == [] then s else Run(parse, Next(parse, s, steps[0]), steps[1..])
  }

  ghost predicate Inv(parse: Parser, s: State) {
    && Coherent(parse, s.cache)
    && forall c :: c in s.callers && s.callers[c].Done? ==>
         s.callers[c].verdict == VerdictOn(parse, s.callers[c].found, s.callers[c].payload)
  }

  lemma NextKeepsInv(parse: Parser, s: State, step: Step)
    requires Inv(parse, s)
    ensures Inv(parse, Next(parse, s, step))
  {
    hide Judge;
  }

  lemma {:induction false} RunsKeepInv(parse: Parser, s: State, steps: seq<Step>)
    requires Inv(parse, s)
    ensures Inv(parse, Run(parse, s, steps))
    decreases |steps|
  {
    if steps != [] {
      NextKeepsInv(parse, s, steps[0]);
      RunsKeepInv(parse, Next(parse, s, steps[0]), steps[1..]);
    }
  }

  // In every run every finished validation has the verdict of an uncached validator on the
  // schema it looked up, whatever was registered or compiled meanwhile.
  lemma CachedVerdictsAreUncached(parse: Parser, registry: map<string, string>, steps: seq<Step>, c: nat)
    requires var s := Run(parse, Init(registry), steps); c in s.callers && s.callers[c].Done?
    ensures var caller := Run(parse, Init(registry), steps).callers[c];
      caller.verdict == VerdictOn(parse, caller.found, caller.payload)
  {
    RunsKeepInv(parse, Init(registry), steps);
    hide VerdictOn;
  }

  // ... and the schema it looked up is the one registered when it began.
  ghost predicate LooksUp(caller: Caller, registered: Option<string>, payload: Json) {
    && caller.payload == payload
    && match caller
       case Done(found, _, _) => found == registered
       case LookedUp(_, src, _) => registered == Some(src)
       case Missed(_, src, _) => registered == Some(src)
  }

  lemma {:induction false} LookupIsAtBegin(
      parse: Parser, s: State, steps: seq<Step>, c: nat, registered: Option<string>, payload: Json)
    requires c in s.callers && LooksUp(s.callers[c], registered, payload)
    ensures var t := Run(parse, s, steps); c in t.callers && LooksUp(t.callers[c], registered, payload)
    decreases |steps|
  {
    if steps != [] {
      LookupIsAtBegin(parse, Next(parse, s, steps[0]), steps[1..], c, registered, payload);
    }
  }

  // A validation ends, if it ends, with the verdict of the uncached validator on the schema
  // registered when it began, whatever ran before and runs beside it.
  lemma VerdictIsOfTheSchemaAtBegin(
      parse: Parser, registry: map<string, string>, before: seq<Step>, c: nat, eventType: string, payload: Json,
      after: seq<Step>)
    requires c !in Run(parse, Init(registry), before).callers
    ensures var s := Run(parse, Init(registry), before);
      var registered := if eventType in s.registry then Some(s.registry[eventType]) else None;
      var t := Run(parse, Next(parse, s, Begin(c, eventType, payload)), after);
      c in t.callers && (t.callers[c].Done? ==> t.callers[c].verdict == VerdictOn(parse, registered, payload))
  {
    var s := Run(parse, Init(registry), before);
    var registered := if eventType in s.registry then Some(s.registry[eventType]) else None;
    var begun := Next(parse, s, Begin(c, eventType, payload));
    RunsKeepInv(parse, Init(registry), before);
    NextKeepsInv(parse, s, Begin(c, eventType, payload));
    LookupIsAtBegin(parse, begun, after, c, registered, payload);
    RunsKeepInv(parse, begun, after);
    hide Run, VerdictOn, Coherent;
  }
}
