// The single-flight key-set cache behind token validation (authjwt/validator.go), as the steps
// its callers take under its two locks.
module Jwks {
  import opened Wrappers

  datatype RsaKey = RsaKey(n: nat, e: int)

  // ---- Reading a key set (RFC 7517, section 5) ------------------------------------------------

  // An entry of a key set; `key` is None when its modulus or exponent does not decode.
  datatype Jwk = Jwk(kid: string, kty: string, key: Option<RsaKey>)

  type KeySet = map<string, RsaKey>

  predicate Usable(k: Jwk) { k.kty == "RSA" && k.key.Some? }

  // Of several usable entries with one key id the last one counts.
  function KeysOf(doc: seq<Jwk>): KeySet {
    if doc == [] then map[]
    else
      var k := doc[|doc| - 1];
      var before := KeysOf(doc[..|doc| - 1]);
      if Usable(k) then before[k.kid := k.key.value] else before
  }

  method BuildKeys(doc: seq<Jwk>) returns (keys: KeySet)
    ensures keys == KeysOf(doc)
  {
    keys := map[];
    var i := 0;
    while i < |doc|
      invariant 0 <= i <= |doc| && keys == KeysOf(doc[..i])
    {
      var k := doc[i];
      assert doc[..i + 1][..i] == doc[..i];
      i := i + 1;
      if k.kty != "RSA" { continue; }
      if k.key.None? { continue; }
      keys := keys[k.kid := k.key.value];
    }
    assert doc[..i] == doc;
  }

  ghost predicate LastUsable(doc: seq<Jwk>, kid: string, i: int) {
    && 0 <= i < |doc| && doc[i].kty == "RSA" && doc[i].key.Some? && doc[i].kid == kid
    && forall j :: i < j < |doc| && doc[j].kty == "RSA" && doc[j].key.Some? ==> doc[j].kid != kid
  }

  lemma {:induction false} KeysAreLastUsable(doc: seq<Jwk>, kid: string)
    ensures kid in KeysOf(doc) <==>
      exists i :: 0 <= i < |doc| && doc[i].kty == "RSA" && doc[i].key.Some? && doc[i].kid == kid
    ensures kid in KeysOf(doc) ==> exists i :: LastUsable(doc, kid, i) && KeysOf(doc)[kid] == doc[i].key.value
    decreases |doc|
  {
    if doc != [] {
      var init, last := doc[..|doc| - 1], doc[|doc| - 1];
      assert doc == init + [last];
      KeysAreLastUsable(init, kid);
      if kid in KeysOf(init) && !(Usable(last) && last.kid == kid) {
        var i :| LastUsable(init, kid, i) && KeysOf(init)[kid] == init[i].key.value;
        assert LastUsable(doc, kid, i);
      } else if Usable(last) && last.kid == kid {
        assert LastUsable(doc, kid, |doc| - 1);
      }
    }
  }

  // A response with an RSA entry that decodes.
  ghost predicate BringsKeys(response: Option<seq<Jwk>>) {
    response.Some? && exists i :: 0 <= i < |response.value| && IsRsa(response.value[i])
  }

  ghost predicate IsRsa(k: Jwk) { k.kty == "RSA" && k.key.Some? }

  // Any other response leaves nothing to install.
  lemma {:induction false} BringsKeysIff(doc: seq<Jwk>)
    ensures BringsKeys(Some(doc)) <==> KeysOf(doc) != map[]
    decreases |doc|
  {
    if doc != [] {
      var init, last := doc[..|doc| - 1], doc[|doc| - 1];
      assert doc == init + [last];
      BringsKeysIff(init);
      if Usable(last) { assert last.kid in KeysOf(doc); }
    }
  }

  // ---- The state ------------------------------------------------------------------------------------

  // Where a caller of keyForKid is. Locked, Fetching and Fetched are inside the single-flight lock.
  datatype Caller =
    | Waiting(kid: string)                  // the cached key was missing or stale
    | Locked(kid: string)
    | Fetching(kid: string)                 // its request is in flight
    | Fetched(kid: string, keys: KeySet)    // it has the new keys and is about to install them
    | Refreshed(kid: string)                // about to read again
    | Done(kid: string, key: Option<RsaKey>)

  datatype Install = Install(at: int, keys: KeySet)

  // `fetched` is None until the first install. `installs` is the history of the cache.
  datatype State = State(
    now: int, keys: KeySet, fetched: Option<int>, holder: Option<nat>,
    callers: map<nat, Caller>, installs: seq<Install>)

  function Init(now: int): State { State(now, map[], None, None, map[], []) }

  predicate Fresh(ttl: int, s: State) { s.fetched.Some? && s.now - s.fetched.value < ttl }

  datatype Step =
    | Wait(seconds: nat)
    | ReadFirst(caller: nat, kid: string)
    | Acquire(caller: nat)
    | Recheck(caller: nat)
    | Respond(caller: nat, response: Option<seq<Jwk>>)   // None: the fetch or its decoding fails
    | DoInstall(caller: nat)
    | ReadAgain(caller: nat, anyKid: string)              // anyKid: the key a map walk meets first

  function Put(s: State, c: nat, caller: Caller): State { s.(callers := s.callers[c := caller]) }

  function Next(ttl: int, s: State, step: Step): State {
    match step
    case Wait(seconds) => s.(now := s.now + seconds)
    case ReadFirst(c, kid) =>
      if c in s.callers && !s.callers[c].Done? then s
      else if kid in s.keys && Fresh(ttl, s) then Put(s, c, Done(kid, Some(s.keys[kid])))
      else Put(s, c, Waiting(kid))
    case Acquire(c) =>
      if c in s.callers && s.callers[c].Waiting? && s.holder.None?
      then Put(s, c, Locked(s.callers[c].kid)).(holder := Some(c)) else s
    case Recheck(c) =>
      if c !in s.callers || !s.callers[c].Locked? then s
      else if Fresh(ttl, s) && s.keys != map[] then Put(s, c, Refreshed(s.callers[c].kid)).(holder := None)
      else Put(s, c, Fetching(s.callers[c].kid))
    case Respond(c, response) =>
      if c !in s.callers || !s.callers[c].Fetching? then s
      else if response.None? || KeysOf(response.value) == map[]
      then Put(s, c, Done(s.callers[c].kid, None)).(holder := None)
      else Put(s, c, Fetched(s.callers[c].kid, KeysOf(response.value)))
    case DoInstall(c) =>
      if c !in s.callers || !s.callers[c].Fetched? then s
      else
        var keys := s.callers[c].keys;
        Put(s, c, Refreshed(s.callers[c].kid))
          .(keys := keys, fetched := Some(s.now), holder := None, installs := s.installs + [Install(s.now, keys)])
    case ReadAgain(c, anyKid) =>
      if c !in s.callers || !s.callers[c].Refreshed? then s
      else
        var kid := s.callers[c].kid;
        if kid in s.keys then Put(s, c, Done(kid, Some(s.keys[kid])))
        else if kid == "" && s.keys != map[] then
          if anyKid in s.keys then Put(s, c, Done(kid, Some(s.keys[anyKid]))) else s
        else Put(s, c, Done(kid, None))
  }

  function Run(ttl: int, s: State, steps: seq<Step>): State
    decreases |steps|
  {
    if steps == [] then s else Run(ttl, Next(ttl, s, steps[0]), steps[1..])
  }

  // ---- The invariant ----------------------------------------------------------------------------------

  predicate InFlight(caller: Caller) { caller.Locked? || caller.Fetching? || caller.Fetched? }

  // Nobody but the holder of the single-flight lock is past it.
  ghost predicate SingleFlight(s: State) {
    forall c :: c in s.callers && InFlight(s.callers[c]) ==> s.holder == Some(c)
  }

  // The cache holds the last install, and installs are not empty.
  ghost predicate CacheIsLastInstall(s: State) {
    && (forall i :: 0 <= i < |s.installs| ==> s.installs[i].keys != map[] && s.installs[i].at <= s.now)
    && (if s.installs == [] then s.keys == map[] && s.fetched == None
        else s.keys == s.installs[|s.installs| - 1].keys && s.fetched == Some(s.installs[|s.installs| - 1].at))
    && (forall c :: c in s.callers && s.callers[c].Fetched? ==> s.callers[c].keys != map[])
  }

  // A fetch is under way only when the cache is stale, and stays so until its own install.
  ghost predicate FetchesAreDue(ttl: int, s: State) {
    && (forall c :: c in s.callers && (s.callers[c].Fetching? || s.callers[c].Fetched?) ==> !Fresh(ttl, s))
    && (forall i, j :: 0 <= i < j < |s.installs| ==> s.installs[j].at - s.installs[i].at >= ttl)
  }

  ghost predicate Inv(ttl: int, s: State) {
    SingleFlight(s) && CacheIsLastInstall(s) && FetchesAreDue(ttl, s)
  }

  lemma NextKeepsSingleFlight(ttl: int, s: State, step: Step)
    requires SingleFlight(s)
    ensures SingleFlight(Next(ttl, s, step))
  {
    hide KeysOf, Fresh;
  }

  lemma NextKeepsCache(ttl: int, s: State, step: Step)
    requires CacheIsLastInstall(s)
    ensures CacheIsLastInstall(Next(ttl, s, step))
  {
    hide KeysOf, Fresh;
    match step
    case Wait(_) =>
    case DoInstall(c) =>
    case Respond(c, response) =>
    case _ =>
  }

  lemma NextKeepsDue(ttl: int, s: State, step: Step)
    requires Inv(ttl, s)
    ensures FetchesAreDue(ttl, Next(ttl, s, step))
  {
    hide KeysOf;
    if step.DoInstall? {
      InstallKeepsDue(ttl, s, step.caller);
    } else if step.Wait? {
      assert Fresh(ttl, Next(ttl, s, step)) ==> Fresh(ttl, s);
    } else {
      StepKeepsClock(ttl, s, step);
      if step.Recheck? && s.keys == map[] { NoKeysNotFresh(ttl, s); }
    }
  }

  lemma NoKeysNotFresh(ttl: int, s: State)
    requires CacheIsLastInstall(s) && s.keys == map[]
    ensures !Fresh(ttl, s)
  {
  }

  // Only waiting moves the clock, only an install the cache; and a caller starts fetching only
  // in Recheck, and is past its fetch only through Respond.
  lemma StepKeepsClock(ttl: int, s: State, step: Step)
    requires !step.DoInstall? && !step.Wait?
    ensures var t := Next(ttl, s, step);
      && t.now == s.now && t.fetched == s.fetched && t.installs == s.installs && t.keys == s.keys
      && forall c :: c in t.callers && (t.callers[c].Fetching? || t.callers[c].Fetched?) ==>
           c in s.callers && (s.callers[c].Fetching? || s.callers[c].Fetched? || (!Fresh(ttl, s) || s.keys == map[]))
  {
    hide KeysOf, Fresh;
  }

  lemma InstallKeepsDue(ttl: int, s: State, c: nat)
    requires Inv(ttl, s)
    ensures FetchesAreDue(ttl, Next(ttl, s, DoInstall(c)))
  {
    if c in s.callers && s.callers[c].Fetched? {
      var t, n := Next(ttl, s, DoInstall(c)), |s.installs|;
      forall i, j | 0 <= i < j < |t.installs| ensures t.installs[j].at - t.installs[i].at >= ttl {
        if j == n && i < n - 1 {
          assert s.installs[n - 1].at - s.installs[i].at >= ttl;
        }
      }
    }
  }

  lemma NextKeepsInv(ttl: int, s: State, step: Step)
    requires Inv(ttl, s)
    ensures Inv(ttl, Next(ttl, s, step))
  {
    NextKeepsSingleFlight(ttl, s, step);
    NextKeepsCache(ttl, s, step);
    NextKeepsDue(ttl, s, step);
    hide Next;
  }

  lemma {:induction false} EveryRunKeepsInv(ttl: int, s: State, steps: seq<Step>)
    requires Inv(ttl, s)
    ensures Inv(ttl, Run(ttl, s, steps))
    decreases |steps|
  {
    if steps != [] {
      NextKeepsInv(ttl, s, steps[0]);
      EveryRunKeepsInv(ttl, Next(ttl, s, steps[0]), steps[1..]);
    }
  }

  // ---- What it gives, in every interleaving -----------------------------------------------------------

  lemma AtMostOneFetchInFlight(ttl: int, start: int, steps: seq<Step>, c: nat, d: nat)
    requires var s := Run(ttl, Init(start), steps);
      c in s.callers && d in s.callers && InFlight(s.callers[c]) && InFlight(s.callers[d])
    ensures c == d
  {
    EveryRunKeepsInv(ttl, Init(start), steps);
  }

  lemma InstallsAreApart(ttl: int, start: int, steps: seq<Step>, i: nat, j: nat)
    requires i < j < |Run(ttl, Init(start), steps).installs|
    ensures var installs := Run(ttl, Init(start), steps).installs; installs[j].at - installs[i].at >= ttl
  {
    EveryRunKeepsInv(ttl, Init(start), steps);
  }

  // Whatever step a caller gets a key by: the key is in the key set installed at that moment, under
  // the asked key id, or under any when none was asked; and only a fresh set is read without
  // asking for a refresh first.
  lemma ReturnedKeyIsInstalled(ttl: int, start: int, steps: seq<Step>, step: Step, c: nat)
    requires var s := Run(ttl, Init(start), steps); var t := Next(ttl, s, step);
      && c in t.callers && t.callers[c].Done? && t.callers[c].key.Some?
      && !(c in s.callers && s.callers[c] == t.callers[c])
    ensures var s := Run(ttl, Init(start), steps); var t := Next(ttl, s, step); var kid := t.callers[c].kid;
      && s.installs != [] && s.keys == s.installs[|s.installs| - 1].keys
      && (if kid in s.keys then t.callers[c].key.value == s.keys[kid]
          else kid == "" && t.callers[c].key.value in s.keys.Values)
      && (step.ReadAgain? || s.now - s.installs[|s.installs| - 1].at < ttl)
  {
    EveryRunKeepsInv(ttl, Init(start), steps);
    var s := Run(ttl, Init(start), steps);
    hide Run, KeysOf;
  }

  // A fetch is in flight only while the set is stale: an unknown key id alone starts none.
  lemma FetchesOnlyWhileStale(ttl: int, start: int, steps: seq<Step>, c: nat)
    requires var s := Run(ttl, Init(start), steps); c in s.callers && s.callers[c].Fetching?
    ensures var s := Run(ttl, Init(start), steps);
      s.installs == [] || s.now - s.installs[|s.installs| - 1].at >= ttl
  {
    EveryRunKeepsInv(ttl, Init(start), steps);
  }

  // A caller that comes in gets a key at once exactly when the last install has one under its id
  // and is younger than the ttl; otherwise it goes for the lock.
  lemma FirstReadAnswersIff(ttl: int, start: int, steps: seq<Step>, c: nat, kid: string)
    requires var s := Run(ttl, Init(start), steps); c in s.callers ==> s.callers[c].Done?
    ensures var s := Run(ttl, Init(start), steps);
      var t := Next(ttl, s, ReadFirst(c, kid));
      && c in t.callers
      && if s.installs == [] then t.callers[c] == Waiting(kid)
         else
           var last := s.installs[|s.installs| - 1];
           t.callers[c] == if kid in last.keys && s.now - last.at < ttl then Done(kid, Some(last.keys[kid]))
                           else Waiting(kid)
  {
    EveryRunKeepsInv(ttl, Init(start), steps);
    hide Run, KeysOf;
  }

  // A caller that has the lock starts a fetch exactly when nothing was installed yet or the last
  // install is a ttl old; otherwise it gives the lock up and reads again.
  lemma RecheckFetchesIff(ttl: int, start: int, steps: seq<Step>, c: nat)
    requires var s := Run(ttl, Init(start), steps); c in s.callers && s.callers[c].Locked?
    ensures var s := Run(ttl, Init(start), steps);
      var t := Next(ttl, s, Recheck(c));
      && c in t.callers
      && if s.installs == [] || s.now - s.installs[|s.installs| - 1].at >= ttl
         then t.callers[c] == Fetching(s.callers[c].kid) && t.holder == Some(c)
         else t.callers[c] == Refreshed(s.callers[c].kid) && t.holder == None
  {
    EveryRunKeepsInv(ttl, Init(start), steps);
    hide Run, KeysOf;
  }

  // A response that has a usable entry is installed, with the time of the install, and any other
  // ends its caller without a key and leaves the cache alone.
  lemma ResponseIsInstalledIff(ttl: int, s: State, c: nat, response: Option<seq<Jwk>>)
    requires c in s.callers && s.callers[c].Fetching?
    ensures var t := Next(ttl, Next(ttl, s, Respond(c, response)), DoInstall(c));
      && c in t.callers && t.holder == None
      && (BringsKeys(response) ==>
            && t.keys == KeysOf(response.value) && t.fetched == Some(s.now)
            && t.installs == s.installs + [Install(s.now, KeysOf(response.value))]
            && t.callers[c] == Refreshed(s.callers[c].kid))
      && (!BringsKeys(response) ==>
            && t.keys == s.keys && t.fetched == s.fetched && t.installs == s.installs
            && t.callers[c] == Done(s.callers[c].kid, None))
  {
    if response.Some? { BringsKeysIff(response.value); }
    hide KeysOf, Fresh;
  }

  // ---- One caller alone -----------------------------------------------------------------------------------

  // What a caller of keyForKid goes through when nobody else is there. A step that does not apply
  // changes nothing.
  function Steps(kid: string, response: Option<seq<Jwk>>, anyKid: string): seq<Step> {
    [ReadFirst(0, kid), Acquire(0), Recheck(0), Respond(0, response), DoInstall(0), ReadAgain(0, anyKid)]
  }

  function Alone(now: int, keys: KeySet, fetched: Option<int>): State {
    State(now, keys, fetched, None, map[], [])
  }

  lemma RunSix(ttl: int, s: State, steps: seq<Step>)
    requires |steps| == 6
    ensures Run(ttl, s, steps) == Next(ttl, Next(ttl, Next(ttl, Next(ttl, Next(ttl, Next(ttl, s,
      steps[0]), steps[1]), steps[2]), steps[3]), steps[4]), steps[5])
  {
    hide Next;
    var s1 := Next(ttl, s, steps[0]);
    var s2 := Next(ttl, s1, steps[1]);
    var s3 := Next(ttl, s2, steps[2]);
    assert Run(ttl, s, steps) == Run(ttl, s1, steps[1..]) == Run(ttl, s2, steps[2..]) == Run(ttl, s3, steps[3..]);
    var s4 := Next(ttl, s3, steps[3]);
    var s5 := Next(ttl, s4, steps[4]);
    assert Run(ttl, s3, steps[3..]) == Run(ttl, s4, steps[4..]) == Run(ttl, s5, steps[5..]);
    assert Run(ttl, s5, steps[5..]) == Run(ttl, Next(ttl, s5, steps[5]), steps[6..]);
  }

  // Where the caller stands before it reads again.
  function Settled(
      ttl: int, now: int, keys: KeySet, fetched: Option<int>, kid: string, response: Option<seq<Jwk>>): State
  {
    var s := Alone(now, keys, fetched);
    if kid in keys && Fresh(ttl, s) then Put(s, 0, Done(kid, Some(keys[kid])))
    else if Fresh(ttl, s) && keys != map[] then Put(s, 0, Refreshed(kid))
    else if response.None? || KeysOf(response.value) == map[] then Put(s, 0, Done(kid, None))
    else
      var built := KeysOf(response.value);
      Put(s, 0, Refreshed(kid)).(keys := built, fetched := Some(now), installs := [Install(now, built)])
  }

  lemma FiveSteps(ttl: int, now: int, keys: KeySet, fetched: Option<int>, kid: string, response: Option<seq<Jwk>>)
    ensures Next(ttl, Next(ttl, Next(ttl, Next(ttl, Next(ttl, Alone(now, keys, fetched),
        ReadFirst(0, kid)), Acquire(0)), Recheck(0)), Respond(0, response)), DoInstall(0))
      == Settled(ttl, now, keys, fetched, kid, response)
  {
    hide KeysOf;
    var s := Alone(now, keys, fetched);
    var s1 := Next(ttl, s, ReadFirst(0, kid));
    var s2 := Next(ttl, s1, Acquire(0));
    if kid in keys && Fresh(ttl, s) {
      assert s2 == Settled(ttl, now, keys, fetched, kid, response);
      var s3 := Next(ttl, s2, Recheck(0));
      assert s3 == s2 == Next(ttl, s3, Respond(0, response));
    } else {
      assert s2 == Put(s, 0, Locked(kid)).(holder := Some(0));
      LockedSteps(ttl, now, keys, fetched, kid, response);
    }
  }

  lemma LockedSteps(ttl: int, now: int, keys: KeySet, fetched: Option<int>, kid: string, response: Option<seq<Jwk>>)
    requires !(kid in keys && Fresh(ttl, Alone(now, keys, fetched)))
    ensures Next(ttl, Next(ttl, Next(ttl, Put(Alone(now, keys, fetched), 0, Locked(kid)).(holder := Some(0)),
        Recheck(0)), Respond(0, response)), DoInstall(0))
      == Settled(ttl, now, keys, fetched, kid, response)
  {
    hide KeysOf;
    var s := Alone(now, keys, fetched);
    var s2 := Put(s, 0, Locked(kid)).(holder := Some(0));
    var s3 := Next(ttl, s2, Recheck(0));
    assert s3 == if Fresh(ttl, s) && keys != map[] then Put(s, 0, Refreshed(kid))
                 else Put(s, 0, Fetching(kid)).(holder := Some(0));
    assert s3.callers[0].Fetching? <==> !(Fresh(ttl, s) && keys != map[]);
    if s3.callers[0].Fetching? {
      FetchSteps(ttl, s, kid, response);
    }
  }

  lemma FetchSteps(ttl: int, s: State, kid: string, response: Option<seq<Jwk>>)
    requires s.holder == None
    ensures Next(ttl, Next(ttl, Put(s, 0, Fetching(kid)).(holder := Some(0)), Respond(0, response)), DoInstall(0))
      == if response.None? || KeysOf(response.value) == map[] then Put(s, 0, Done(kid, None))
         else Put(s, 0, Refreshed(kid)).(keys := KeysOf(response.value), fetched := Some(s.now),
                                         installs := s.installs + [Install(s.now, KeysOf(response.value))])
  {
    hide KeysOf, Fresh;
    var s4 := Next(ttl, Put(s, 0, Fetching(kid)).(holder := Some(0)), Respond(0, response));
    assert s4 == if response.None? || KeysOf(response.value) == map[] then Put(s, 0, Done(kid, None))
                 else Put(s, 0, Fetched(kid, KeysOf(response.value))).(holder := Some(0));
  }

  lemma AloneEndsSettled(
      ttl: int, now: int, keys: KeySet, fetched: Option<int>, kid: string, response: Option<seq<Jwk>>,
      anyKid: string)
    ensures Run(ttl, Alone(now, keys, fetched), Steps(kid, response, anyKid))
         == Next(ttl, Settled(ttl, now, keys, fetched, kid, response), ReadAgain(0, anyKid))
  {
    RunSix(ttl, Alone(now, keys, fetched), Steps(kid, response, anyKid));
    FiveSteps(ttl, now, keys, fetched, kid, response);
    hide Next, Run, Settled;
  }

  // How one caller alone comes out, by what it finds cached and what the response brings.
  lemma AloneEndsAs(
      ttl: int, now: int, keys: KeySet, fetched: Option<int>, kid: string, response: Option<seq<Jwk>>,
      anyKid: string, after: KeySet, since: Option<int>, key: Option<RsaKey>)
    requires var young := fetched.Some? && now - fetched.value < ttl && keys != map[];
      if !young && !BringsKeys(response) then after == keys && since == fetched && key == None
      else
        && (if young then after == keys && since == fetched
            else response.Some? && after == KeysOf(response.value) && since == Some(now))
        && key == (if kid in after then Some(after[kid])
                   else if kid == "" && anyKid in after then Some(after[anyKid]) else None)
        && (kid == "" && after != map[] && kid !in after ==> anyKid in after)
    ensures var s := Run(ttl, Alone(now, keys, fetched), Steps(kid, response, anyKid));
      && after == s.keys && since == s.fetched && s.holder == None
      && 0 in s.callers && s.callers[0] == Done(kid, key)
  {
    if response.Some? { BringsKeysIff(response.value); }
    AloneEndsSettled(ttl, now, keys, fetched, kid, response, anyKid);
    hide Run, Steps, KeysOf;
  }

  class Validator {
    const ttl: int
    var keys: KeySet
    var fetched: Option<int>

    // A zero ttl stands for ten minutes.
    constructor (ttl: int)
      ensures this.ttl == (if ttl == 0 then 600 else ttl) && keys == map[] && fetched == None
    {
      this.ttl := if ttl == 0 then 600 else ttl;
      keys, fetched := map[], None;
    }

    predicate IsFresh(now: int)
      reads this
    {
      fetched.Some? && now - fetched.value < ttl
    }

    method Refresh(now: int, response: Option<seq<Jwk>>) returns (ok: bool)
      modifies this
      ensures if old(fetched.Some? && now - fetched.value < ttl && keys != map[]) then
          ok && keys == old(keys) && fetched == old(fetched)
        else if BringsKeys(response) then ok && keys == KeysOf(response.value) && fetched == Some(now)
        else !ok && keys == old(keys) && fetched == old(fetched)
    {
      if response.Some? { BringsKeysIff(response.value); }
      if IsFresh(now) && keys != map[] { return true; }
      if response.None? { return false; }
      var built := BuildKeys(response.value);
      if built == map[] { return false; }
      keys := built;
      fetched := Some(now);
      return true;
    }

    // `response` is what a fetch would return. `anyKid` is the key that a walk over the map met
    // first, if one was made.
    method KeyForKid(kid: string, now: int, response: Option<seq<Jwk>>)
      returns (key: Option<RsaKey>, ghost anyKid: string)
      modifies this
      // A cached key is returned while its set is younger than the ttl. An older set, or none, is
      // replaced by the response when that has a usable entry.
      ensures var young := old(fetched.Some? && now - fetched.value < ttl && keys != map[]);
        var usable := BringsKeys(response);
        && (if !young && usable then keys == KeysOf(response.value) && fetched == Some(now)
            else keys == old(keys) && fetched == old(fetched))
        && (if !young && !usable then key == None
            else if kid in keys then key == Some(keys[kid])
            else if kid == "" && keys != map[] then key.Some? && key.value in keys.Values
            else key == None)
      ensures var s := Run(ttl, old(Alone(now, keys, fetched)), Steps(kid, response, anyKid));
        && keys == s.keys && fetched == s.fetched && s.holder == None
        && 0 in s.callers && s.callers[0] == Done(kid, key)
    {
      anyKid := "";
      hide Run, Steps, KeysOf, IsRsa;
      ghost var cached, since := keys, fetched;
      if kid in keys && IsFresh(now) {
        AloneEndsAs(ttl, now, cached, since, kid, response, anyKid, keys, fetched, Some(keys[kid]));
        return Some(keys[kid]), anyKid;
      }
      var ok := Refresh(now, response);
      if !ok {
        AloneEndsAs(ttl, now, cached, since, kid, response, anyKid, keys, fetched, None);
        return None, anyKid;
      }
      if kid in keys {
        key := Some(keys[kid]);
      } else if kid == "" && keys != map[] {
        var k :| k in keys;
        anyKid := k;
        key := Some(keys[k]);
      } else {
        key := None;
      }
      AloneEndsAs(ttl, now, cached, since, kid, response, anyKid, keys, fetched, key);
    }
  }
}
