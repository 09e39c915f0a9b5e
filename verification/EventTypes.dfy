// Event types, topics and the event registry (kafka/event.go, kafka/event_taxonomy.go).
module EventTypes {
  import opened Text
  import opened Wrappers

  // ---- Dotted names ------------------------------------------------------------------------

  predicate DotFree(s: string) { '.' !in s }

  // The segments between the dots.
  function Segments(s: string): (segs: seq<string>)
    ensures segs != [] && forall i :: 0 <= i < |segs| ==> DotFree(segs[i])
  {
    if s == [] then [""]
    else
      var rest := Segments(s[1..]);
      if s[0] == '.' then [""] + rest else [[s[0]] + rest[0]] + rest[1..]
  }

  function Join(segs: seq<string>): string
    requires segs != []
  {
    if |segs| == 1 then segs[0] else segs[0] + "." + Join(segs[1..])
  }

  lemma {:induction false} JoinSegments(s: string)
    ensures Join(Segments(s)) == s
  {
    if s != [] {
      var rest := Segments(s[1..]);
      JoinSegments(s[1..]);
      if s[0] == '.' {
        assert ([""] + rest)[1..] == rest;
        assert Join([""] + rest) == "" + "." + Join(rest) == s;
      } else {
        JoinGrowFirst(s[0], rest);
      }
    }
  }

  lemma JoinGrowFirst(c: char, segs: seq<string>)
    requires segs != []
    ensures Join([[c] + segs[0]] + segs[1..]) == [c] + Join(segs)
  {
    var grown := [[c] + segs[0]] + segs[1..];
    assert grown[1..] == segs[1..];
    if |segs| > 1 {
      assert ([c] + segs[0]) + "." + Join(segs[1..]) == [c] + (segs[0] + "." + Join(segs[1..]));
    }
  }

  // A dot-free piece, a dot and more: the piece is the first segment.
  lemma {:induction false} FirstSegment(d: string, rest: string)
    requires DotFree(d)
    ensures Segments(d + "." + rest) == [d] + Segments(rest)
    decreases |d|
  {
    var s := d + "." + rest;
    if d == [] {
      assert s[1..] == rest;
    } else {
      assert s[1..] == d[1..] + "." + rest && s[0] == d[0] && d[0] in d;
      assert DotFree(d[1..]);
      FirstSegment(d[1..], rest);
      assert [[d[0]] + d[1..]] + Segments(rest) == [d] + Segments(rest) by { assert [d[0]] + d[1..] == d; }
    }
  }

  lemma {:induction false} OnlySegment(d: string)
    requires DotFree(d)
    ensures Segments(d) == [d]
  {
    if d != [] {
      assert d[0] in d && DotFree(d[1..]);
      OnlySegment(d[1..]);
      assert [d[0]] + d[1..] == d;
    }
  }

  // ---- The grammar of event types -----------------------------------------------------------

  predicate Lower(c: char) { 'a' <= c <= 'z' }

  predicate DigitChar(c: char) { '0' <= c <= '9' }

  predicate DomainSegment(s: string) {
    s != "" && Lower(s[0]) && forall c :: c in s ==> Lower(c) || DigitChar(c)
  }

  predicate NameSegment(s: string) {
    s != "" && Lower(s[0]) && forall c :: c in s ==> Lower(c) || DigitChar(c) || c == '_'
  }

  // ^[a-z][a-z0-9]*(\.[a-z][a-z0-9_]*){2,}$
  predicate ValidEventType(eventType: string) {
    var segs := Segments(eventType);
    |segs| >= 3 && DomainSegment(segs[0]) && forall i :: 1 <= i < |segs| ==> NameSegment(segs[i])
  }

  // Character by character: at least two dots, each before a lower-case letter; a lower-case letter at
  // the start; besides dots only lower-case letters, digits and, after the first dot, underscores.
  ghost predicate Grammatical(t: string) {
    && t != "" && 'a' <= t[0] <= 'z'
    && (forall c :: c in t ==> 'a' <= c <= 'z' || '0' <= c <= '9' || c == '_' || c == '.')
    && (forall i :: 0 <= i < |t| && t[i] == '.' ==> i + 1 < |t| && 'a' <= t[i + 1] <= 'z')
    && (forall i :: 0 <= i < |t| && t[i] == '_' ==> exists j :: 0 <= j < i && t[j] == '.')
    && (exists i, j :: 0 <= i < j < |t| && t[i] == '.' && t[j] == '.')
  }

  // The same of what follows the first dot: name segments joined by dots.
  ghost predicate NamesOnly(t: string) {
    && t != "" && 'a' <= t[0] <= 'z'
    && (forall c :: c in t ==> 'a' <= c <= 'z' || '0' <= c <= '9' || c == '_' || c == '.')
    && (forall i :: 0 <= i < |t| && t[i] == '.' ==> i + 1 < |t| && 'a' <= t[i + 1] <= 'z')
  }

  ghost predicate AllNames(segs: seq<string>) {
    forall i :: 0 <= i < |segs| ==> NameSegment(segs[i])
  }

  // A text is one segment, or a first segment, a dot and a rest.
  lemma FirstDotSplits(t: string) returns (d: string, rest: string)
    ensures DotFree(d)
    ensures '.' in t ==> t == d + "." + rest && Segments(t) == [d] + Segments(rest)
    ensures '.' !in t ==> t == d && Segments(t) == [d]
  {
    var i := FirstDot(t, 0);
    d := t[..i];
    assert t[0..i] == d;
    if i < |t| {
      rest := t[i + 1..];
      assert t == d + "." + rest;
      FirstSegment(d, rest);
    } else {
      rest := "";
      assert t == d;
      OnlySegment(t);
    }
  }

  lemma {:induction false} AllNamesIff(t: string)
    ensures AllNames(Segments(t)) <==> NamesOnly(t)
    decreases |t|
  {
    var d, rest := FirstDotSplits(t);
    if '.' in t {
      AllNamesIff(rest);
      NamesSplit(d, rest);
      hide Segments, NameSegment, NamesOnly, DotFree;
      assert AllNames([d] + Segments(rest)) <==> NameSegment(d) && AllNames(Segments(rest)) by {
        NamesCons(d, Segments(rest));
      }
    } else {
      OneName(t);
      NamesCons(t, []);
      assert [t] + [] == [t];
      hide Segments, NameSegment, NamesOnly;
    }
  }

  lemma NamesCons(d: string, segs: seq<string>)
    ensures AllNames([d] + segs) <==> NameSegment(d) && AllNames(segs)
  {
    hide NameSegment;
    assert forall i :: 0 <= i < |segs| ==> ([d] + segs)[i + 1] == segs[i];
    if AllNames([d] + segs) {
      assert ([d] + segs)[0] == d;
      forall i | 0 <= i < |segs| ensures NameSegment(segs[i]) { assert NameSegment(([d] + segs)[i + 1]); }
    }
  }

  lemma OneName(t: string)
    requires DotFree(t)
    ensures NamesOnly(t) <==> NameSegment(t)
  {
  }

  lemma NamesSplit(d: string, rest: string)
    requires DotFree(d)
    ensures NamesOnly(d + "." + rest) <==> NameSegment(d) && NamesOnly(rest)
  {
    if NamesOnly(d + "." + rest) { NamesParts(d, rest); }
    if NameSegment(d) && NamesOnly(rest) { PartsAreNames(d, rest); }
    hide *;
  }

  lemma NamesParts(d: string, rest: string)
    requires DotFree(d) && NamesOnly(d + "." + rest)
    ensures NameSegment(d) && NamesOnly(rest)
  {
    var t := d + "." + rest;
    SplitChars(d, rest);
    assert forall c :: c in t <==> c in d || c == '.' || c in rest;
    assert forall i :: 0 <= i < |rest| ==> rest[i] == t[|d| + 1 + i];
    assert t[|d|] == '.';
    forall i | 0 <= i < |rest| && rest[i] == '.' ensures i + 1 < |rest| && 'a' <= rest[i + 1] <= 'z' {
      assert t[|d| + 1 + i] == '.';
      assert 'a' <= t[|d| + 1 + i + 1] <= 'z';
    }
    assert |d| > 0;
    assert d[0] == t[0];
  }

  lemma PartsAreNames(d: string, rest: string)
    requires DotFree(d) && NameSegment(d) && NamesOnly(rest)
    ensures NamesOnly(d + "." + rest)
  {
    var t := d + "." + rest;
    SplitChars(d, rest);
    assert forall c :: c in t <==> c in d || c == '.' || c in rest;
    assert d[0] == t[0];
    forall i | 0 <= i < |t| && t[i] == '.' ensures i + 1 < |t| && 'a' <= t[i + 1] <= 'z' {
      if i == |d| { assert t[i + 1] == rest[0]; } else { assert t[i + 1] == rest[i - |d|]; }
    }
  }

  lemma SplitChars(d: string, rest: string)
    ensures var t := d + "." + rest;
      && |t| == |d| + 1 + |rest| && t[|d|] == '.'
      && (forall i :: 0 <= i < |d| ==> t[i] == d[i] && d[i] in d)
      && (forall i :: |d| < i < |t| ==> t[i] == rest[i - |d| - 1])
  {
  }

  // The pattern of event types, read character by character.
  lemma ValidTypeIff(t: string)
    ensures ValidEventType(t) <==> Grammatical(t)
  {
    var d, rest := FirstDotSplits(t);
    if '.' in t {
      AllNamesIff(rest);
      TypeSplits(d, rest);
      MoreDots(rest);
      assert ValidEventType(t) <==> DomainSegment(d) && '.' in rest && AllNames(Segments(rest)) by {
        NamesAfterFirst(d, Segments(rest));
        hide DomainSegment, NameSegment;
      }
    } else {
      hide DomainSegment, NameSegment;
    }
  }

  lemma NamesAfterFirst(d: string, segs: seq<string>)
    ensures (forall i :: 1 <= i < |[d] + segs| ==> NameSegment(([d] + segs)[i])) <==> AllNames(segs)
  {
    hide NameSegment;
    assert forall i :: 0 <= i < |segs| ==> ([d] + segs)[i + 1] == segs[i];
    if forall i :: 1 <= i < |[d] + segs| ==> NameSegment(([d] + segs)[i]) {
      forall i | 0 <= i < |segs| ensures NameSegment(segs[i]) { assert NameSegment(([d] + segs)[i + 1]); }
    }
  }

  lemma MoreDots(rest: string)
    ensures |Segments(rest)| >= 2 <==> '.' in rest
  {
    var d, r := FirstDotSplits(rest);
    hide Segments;
  }

  lemma TypeSplits(d: string, rest: string)
    requires DotFree(d)
    ensures Grammatical(d + "." + rest) <==> DomainSegment(d) && '.' in rest && NamesOnly(rest)
  {
    NamesSplit(d, rest);
    hide *;
    if Grammatical(d + "." + rest) { GrammaticalParts(d, rest); }
    if DomainSegment(d) && '.' in rest && NamesOnly(rest) { PartsAreGrammatical(d, rest); }
  }

  lemma GrammaticalParts(d: string, rest: string)
    requires DotFree(d) && Grammatical(d + "." + rest)
    ensures DomainSegment(d) && '.' in rest && NamesOnly(rest)
  {
    var t := d + "." + rest;
    SplitChars(d, rest);
    NamesSplit(d, rest);
    assert NamesOnly(t);
    hide NamesOnly;
    var i, j :| 0 <= i < j < |t| && t[i] == '.' && t[j] == '.';
    assert j > |d|;
    assert rest[j - |d| - 1] == '.';
    forall c | c in d ensures c != '_' {
      var k :| 0 <= k < |d| && d[k] == c;
      assert t[k] == c;
    }
  }

  lemma PartsAreGrammatical(d: string, rest: string)
    requires DotFree(d) && DomainSegment(d) && '.' in rest && NamesOnly(rest)
    ensures Grammatical(d + "." + rest)
  {
    var t := d + "." + rest;
    SplitChars(d, rest);
    NamesSplit(d, rest);
    assert NameSegment(d) && NamesOnly(t);
    var k :| 0 <= k < |rest| && rest[k] == '.';
    assert t[|d|] == '.' && t[|d| + 1 + k] == '.';
    forall i | 0 <= i < |t| && t[i] == '_' ensures exists j :: 0 <= j < i && t[j] == '.' {
      assert i > |d|;
    }
  }

  // ---- Domain, resource, topic ------------------------------------------------------------------

  function EventParts(eventType: string): (string, string) {
    var segs := Segments(eventType);
    (segs[0], if |segs| == 1 then "" else segs[1])
  }

  function FirstDot(s: string, from: nat): (i: nat)
    requires from <= |s|
    ensures from <= i <= |s| && (i < |s| ==> s[i] == '.') && DotFree(s[from..i])
    decreases |s| - from
  {
    if from == |s| || s[from] == '.' then from
    else
      var i := FirstDot(s, from + 1);
      assert s[from..i] == [s[from]] + s[from + 1..i];
      i
  }

  ghost predicate NoDotIn(s: string, from: int, to: int) {
    forall k :: 0 <= from <= k < to <= |s| ==> s[k] != '.'
  }

  lemma NoDotIsDotFree(s: string, from: nat, to: nat)
    requires from <= to <= |s| && NoDotIn(s, from, to)
    ensures DotFree(s[from..to])
  {
  }

  // The text up to the first dot, and from there up to the second, as far as there are dots.
  ghost predicate StartsWith(s: string, domain: string, resource: string) {
    && DotFree(domain) && DotFree(resource)
    && (|| (s == domain && resource == "") || s == domain + "." + resource
        || exists rest :: s == domain + "." + resource + "." + rest)
  }

  lemma OneDot(s: string, first: nat)
    requires first < |s| && s[first] == '.' && NoDotIn(s, 0, first) && NoDotIn(s, first + 1, |s|)
    ensures EventParts(s) == (s[..first], s[first + 1..]) && StartsWith(s, s[..first], s[first + 1..])
  {
    NoDotIsDotFree(s, 0, first);
    NoDotIsDotFree(s, first + 1, |s|);
    var domain, rest := s[..first], s[first + 1..];
    assert domain == s[0..first] && rest == s[first + 1..|s|] && s == domain + "." + rest;
    hide NoDotIn, DotFree, Segments;
    FirstSegment(domain, rest);
    OnlySegment(rest);
  }

  lemma TwoDots(s: string, first: nat, second: nat)
    requires first < second < |s| && s[first] == s[second] == '.'
    requires NoDotIn(s, 0, first) && NoDotIn(s, first + 1, second)
    ensures EventParts(s) == (s[..first], s[first + 1..second]) && StartsWith(s, s[..first], s[first + 1..second])
  {
    NoDotIsDotFree(s, 0, first);
    NoDotIsDotFree(s, first + 1, second);
    var domain, resource, rest := s[..first], s[first + 1..second], s[second + 1..];
    assert domain == s[0..first] && s == domain + "." + (resource + "." + rest);
    assert s == domain + "." + resource + "." + rest;
    hide NoDotIn, DotFree, Segments;
    FirstSegment(domain, resource + "." + rest);
    FirstSegment(resource, rest);
  }

  method SplitEventParts(eventType: string) returns (domain: string, resource: string)
    ensures (domain, resource) == EventParts(eventType)
    ensures StartsWith(eventType, domain, resource)
  {
    hide StartsWith, DotFree, Segments, EventParts;
    var first, second := -1, -1;
    var i := 0;
    while i < |eventType|
      invariant 0 <= i <= |eventType|
      invariant -1 <= first < i && second == -1
      invariant first < 0 ==> NoDotIn(eventType, 0, i)
      invariant first >= 0 ==>
        eventType[first] == '.' && NoDotIn(eventType, 0, first) && NoDotIn(eventType, first + 1, i)
    {
      if eventType[i] == '.' {
        if first < 0 {
          first := i;
        } else {
          second := i;
          break;
        }
      }
      i := i + 1;
    }
    hide NoDotIn;
    if first < 0 {
      NoDots(eventType);
      return eventType, "";
    }
    domain := eventType[..first];
    if second < 0 {
      OneDot(eventType, first);
      return domain, eventType[first + 1..];
    }
    resource := eventType[first + 1..second];
    TwoDots(eventType, first, second);
  }

  lemma NoDots(s: string)
    requires NoDotIn(s, 0, |s|)
    ensures EventParts(s) == (s, "") && StartsWith(s, s, "")
  {
    OnlySegment(s);
  }

  function TopicFromEventType(prefix: string, eventType: string): string {
    var (domain, resource) := EventParts(eventType);
    if resource != "" then prefix + "." + domain + "." + resource else prefix + "." + eventType
  }

  function DomainOf(eventType: string): string {
    var i := FirstDot(eventType, 0);
    if 0 < i < |eventType| then eventType[..i] else eventType
  }

  // A valid type is its domain, its resource and a rest, joined by dots, in one way only.
  lemma ValidTypeSplits(eventType: string)
    requires ValidEventType(eventType)
    ensures var (domain, resource) := EventParts(eventType);
      && DotFree(domain) && DotFree(resource) && domain != "" && resource != ""
      && DomainOf(eventType) == domain
      && exists rest :: rest != "" && eventType == domain + "." + resource + "." + rest
  {
    var segs := Segments(eventType);
    JoinSegments(eventType);
    var tail := segs[1..];
    var rest := Join(tail[1..]);
    assert Join(segs) == segs[0] + "." + Join(tail) && Join(tail) == tail[0] + "." + rest;
    assert eventType == segs[0] + "." + segs[1] + "." + rest;
    assert rest != "" by { assert tail[1..][0] == segs[2] && segs[2] != ""; }
    DomainIsFirst(eventType, segs[0], segs[1] + "." + rest);
  }

  lemma DomainIsFirst(eventType: string, d: string, tail: string)
    requires DotFree(d) && d != "" && eventType == d + "." + tail
    ensures DomainOf(eventType) == d
  {
    var i := FirstDot(eventType, 0);
    assert forall k :: 0 <= k < |d| ==> eventType[k] == d[k] && d[k] in d;
    assert forall k :: 0 <= k < i ==> eventType[k] == eventType[0..i][k] && eventType[0..i][k] in eventType[0..i];
    assert eventType[|d|] == '.';
    assert i == |d|;
    assert eventType[..i] == d;
  }

  lemma SplitIsUnique(eventType: string, domain: string, resource: string, rest: string)
    requires DotFree(domain) && DotFree(resource) && eventType == domain + "." + resource + "." + rest
    ensures EventParts(eventType) == (domain, resource)
  {
    assert eventType == domain + "." + (resource + "." + rest);
    FirstSegment(domain, resource + "." + rest);
    FirstSegment(resource, rest);
  }

  // The topic of a type is the prefix, its domain and its resource; a type that lacks one of the two
  // stands for itself.
  lemma TopicText(prefix: string, d: string, r: string, rest: string)
    requires DotFree(d) && DotFree(r)
    ensures TopicFromEventType(prefix, d) == prefix + "." + d
    ensures TopicFromEventType(prefix, d + "." + r)
         == if r != "" then prefix + "." + d + "." + r else prefix + "." + (d + "." + r)
    ensures TopicFromEventType(prefix, d + "." + r + "." + rest)
         == if r != "" then prefix + "." + d + "." + r else prefix + "." + (d + "." + r + "." + rest)
  {
    OnlySegment(d);
    FirstSegment(d, r);
    OnlySegment(r);
    SplitIsUnique(d + "." + r + "." + rest, d, r, rest);
    hide Segments, DotFree;
  }

  // The topic of a valid type, spelled out.
  ghost predicate IsTopicOf(topic: string, prefix: string, eventType: string) {
    exists d, r, rest :: DotFree(d) && DotFree(r) && d != "" && r != "" && rest != ""
      && eventType == d + "." + r + "." + rest && topic == prefix + "." + d + "." + r
  }

  lemma TopicIsSpelledOut(prefix: string, eventType: string)
    requires ValidEventType(eventType)
    ensures IsTopicOf(TopicFromEventType(prefix, eventType), prefix, eventType)
  {
    ValidTypeSplits(eventType);
    var (d, r) := EventParts(eventType);
    var rest :| rest != "" && eventType == d + "." + r + "." + rest;
    TopicText(prefix, d, r, rest);
  }

  // Two valid types have the same topic exactly when their first two segments agree.
  lemma SameTopicIff(prefix: string, t: string, u: string)
    requires ValidEventType(t) && ValidEventType(u)
    ensures TopicFromEventType(prefix, t) == TopicFromEventType(prefix, u) <==> EventParts(t) == EventParts(u)
  {
    ValidTypeSplits(t);
    ValidTypeSplits(u);
    var ((d, r), (e, q)) := (EventParts(t), EventParts(u));
    if TopicFromEventType(prefix, t) == TopicFromEventType(prefix, u) {
      var x, y := prefix + "." + d + "." + r, prefix + "." + e + "." + q;
      assert d + "." + r == x[|prefix| + 1..] == y[|prefix| + 1..] == e + "." + q;
      FirstSegment(d, r);
      FirstSegment(e, q);
      OnlySegment(r);
      OnlySegment(q);
      assert [d] + [r] == [e] + [q] && ([d] + [r])[0] == d && ([e] + [q])[0] == e;
      assert ([d] + [r])[1] == r && ([e] + [q])[1] == q;
    }
  }

  // Whatever is appended to a valid type, its topic stays.
  lemma SuffixKeepsTopic(prefix: string, eventType: string, suffix: string)
    requires ValidEventType(eventType)
    ensures TopicFromEventType(prefix, eventType + suffix) == TopicFromEventType(prefix, eventType)
  {
    ValidTypeSplits(eventType);
    var (domain, resource) := EventParts(eventType);
    var rest :| rest != "" && eventType == domain + "." + resource + "." + rest;
    assert eventType + suffix == domain + "." + resource + "." + (rest + suffix);
    SplitIsUnique(eventType + suffix, domain, resource, rest + suffix);
  }

  // ---- The registry -----------------------------------------------------------------------------

  datatype RegisteredEvent = RegisteredEvent(typ: string, domain: string, schema: string)

  datatype RegisterError = TypeRequired | InvalidType | SchemaRequired

  // Of two events of one type, the later one counts.
  function Indexed(events: seq<RegisteredEvent>): map<string, RegisteredEvent> {
    if events == [] then map[]
    else
      var last := events[|events| - 1];
      Indexed(events[..|events| - 1])[last.typ := last]
  }

  ghost predicate LastOfType(events: seq<RegisteredEvent>, t: string, i: int) {
    0 <= i < |events| && events[i].typ == t && forall j :: i < j < |events| ==> events[j].typ != t
  }

  lemma {:induction false} IndexedIsLast(events: seq<RegisteredEvent>, t: string)
    ensures t in Indexed(events) <==> exists i :: 0 <= i < |events| && events[i].typ == t
    ensures t in Indexed(events) ==> exists i :: LastOfType(events, t, i) && Indexed(events)[t] == events[i]
    decreases |events|
  {
    if events != [] {
      var init, last := events[..|events| - 1], events[|events| - 1];
      assert events == init + [last];
      IndexedIsLast(init, t);
      if last.typ == t {
        assert LastOfType(events, t, |events| - 1);
      } else if t in Indexed(init) {
        var i :| LastOfType(init, t, i) && Indexed(init)[t] == init[i];
        assert LastOfType(events, t, i);
      }
    }
  }

  class Registry {
    var registry: map<string, RegisteredEvent>
    ghost var accepted: seq<RegisteredEvent>   // the built-in events and those registered since

    ghost predicate Valid()
      reads this
    {
      registry == Indexed(accepted)
    }

    // The built-in events, in the order they are listed.
    constructor (events: seq<RegisteredEvent>)
      ensures Valid() && accepted == events
    {
      registry := map[];
      accepted := events;
      new;
      var i := 0;
      while i < |events|
        invariant 0 <= i <= |events| && accepted == events && registry == Indexed(events[..i])
      {
        assert events[..i + 1][..i] == events[..i];
        registry := registry[events[i].typ := events[i]];
        i := i + 1;
      }
      assert events[..i] == events;
    }

    function LookupEvent(eventType: string): (e: Option<RegisteredEvent>)
      requires Valid()
      reads this
      ensures e.None? <==> forall i :: 0 <= i < |accepted| ==> accepted[i].typ != eventType
      ensures e.Some? ==> exists i :: LastOfType(accepted, eventType, i) && e.value == accepted[i]
    {
      IndexedIsLast(accepted, eventType);
      if eventType in registry then Some(registry[eventType]) else None
    }

    method RegisterExtensionEvent(e: RegisteredEvent) returns (result: Result<(), RegisterError>)
      requires Valid()
      modifies this
      ensures Valid()
      ensures e.typ == "" ==> result == Err(TypeRequired)
      ensures e.typ != "" && !ValidEventType(e.typ) ==> result == Err(InvalidType)
      ensures ValidEventType(e.typ) && e.schema == "" ==> result == Err(SchemaRequired)
      ensures if ValidEventType(e.typ) && e.schema != ""
        then result == Ok(()) && accepted == old(accepted) + [e] && registry == old(registry)[e.typ := e]
        else accepted == old(accepted) && registry == old(registry)
    {
      if e.typ == "" { return Err(TypeRequired); }
      if !ValidEventType(e.typ) { return Err(InvalidType); }
      if e.schema == "" { return Err(SchemaRequired); }
      registry := registry[e.typ := e];
      accepted := accepted + [e];
      assert accepted[..|accepted| - 1] == old(accepted);
      return Ok(());
    }

    // Every topic of a registered event, once, in order.
    method KnownTopics(prefix: string) returns (topics: seq<string>)
      requires Valid()
      ensures Sorted(topics)
      ensures forall topic :: topic in topics <==>
        exists t :: t in registry && topic == TopicFromEventType(if prefix == "" then "sentiae" else prefix, t)
      ensures forall t :: t in registry && ValidEventType(t) ==>
        exists topic :: topic in topics && IsTopicOf(topic, if prefix == "" then "sentiae" else prefix, t)
    {
      var p := if prefix == "" then "sentiae" else prefix;
      assert forall t :: t in registry ==> registry[t].typ == t by {
        forall t | t in registry ensures registry[t].typ == t { IndexedIsLast(accepted, t); }
      }
      hide Valid, Indexed, TopicFromEventType;
      var seen: set<string> := {};
      var todo := registry.Keys;
      while todo != {}
        invariant todo <= registry.Keys
        invariant forall topic :: topic in seen <==>
          exists t :: t in registry && t !in todo && topic == TopicFromEventType(p, t)
        decreases todo
      {
        var t :| t in todo;
        seen := seen + {TopicFromEventType(p, registry[t].typ)};
        todo := todo - {t};
      }
      topics := SortedKeys(seen);
      forall t | t in registry && ValidEventType(t) ensures exists topic :: topic in topics && IsTopicOf(topic, p, t) {
        TopicIsSpelledOut(p, t);
        assert TopicFromEventType(p, t) in topics;
      }
    }
  }
}
