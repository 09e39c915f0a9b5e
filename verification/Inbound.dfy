// The inbound webhook receiver: verification, de-duplication and dispatch
// (webhook/inbound/inbound.go).
module Inbound {
  import opened Wrappers

  // ---- The idempotency store ---------------------------------------------------------------

  type Seen = map<string, int>

  function Unexpired(seen: Seen, ttl: int, now: int): Seen {
    map k | k in seen && !(now - seen[k] > ttl) :: seen[k]
  }

  // True when the key is known; otherwise the key is recorded.
  function SeenOrRecordIn(seen: Seen, ttl: int, key: string, now: int): (Seen, bool) {
    var kept := Unexpired(seen, ttl, now);
    if key in kept then (kept, true) else (kept[key := now], false)
  }

  class MemStore {
    const ttl: int
    var seen: Seen

    constructor (ttl: int)
      ensures this.ttl == ttl && seen == map[]
    {
      this.ttl := ttl;
      seen := map[];
    }

    method SeenOrRecord(key: string, now: int) returns (known: bool)
      modifies this
      ensures (seen, known) == SeenOrRecordIn(old(seen), ttl, key, now)
      ensures known <==> key in old(seen) && now - old(seen)[key] <= ttl
      ensures forall k :: k in seen <==> k == key || (k in old(seen) && now - old(seen)[k] <= ttl)
      ensures forall k :: k in seen ==> seen[k] == if k == key && !known then now else old(seen)[k]
    {
      var todo := seen.Keys;
      while todo != {}
        invariant todo <= seen.Keys <= old(seen).Keys
        invariant forall k :: k in seen ==> seen[k] == old(seen)[k]
        invariant forall k :: k in seen && k !in todo ==> !(now - seen[k] > ttl)
        invariant forall k :: k in old(seen) && !(now - old(seen)[k] > ttl) ==> k in seen
        decreases todo
      {
        var k :| k in todo;
        todo := todo - {k};
        if now - seen[k] > ttl {
          seen := seen - {k};
        }
      }
      assert seen == Unexpired(old(seen), ttl, now);
      if key in seen { return true; }
      seen := seen[key := now];
      return false;
    }
  }

  // ---- Runs of the store -------------------------------------------------------------------------

  datatype Call = Call(key: string, now: int)

  // A clock that does not run backwards.
  ghost predicate Monotone(calls: seq<Call>) {
    forall i, j :: 0 <= i < j < |calls| ==> calls[i].now <= calls[j].now
  }

  function SeenAfter(ttl: int, calls: seq<Call>): Seen {
    if calls == [] then map[]
    else
      var c := calls[|calls| - 1];
      SeenOrRecordIn(SeenAfter(ttl, calls[..|calls| - 1]), ttl, c.key, c.now).0
  }

  // The answer to call i: was its key known?
  function Known(ttl: int, calls: seq<Call>, i: nat): bool
    requires i < |calls|
  {
    SeenOrRecordIn(SeenAfter(ttl, calls[..i]), ttl, calls[i].key, calls[i].now).1
  }

  // A call before n that accepted the key and is not older than ttl at a time.
  ghost predicate AcceptedWithin(ttl: int, calls: seq<Call>, n: nat, key: string, now: int)
    requires n <= |calls|
  {
    exists j :: 0 <= j < n && calls[j].key == key && !Known(ttl, calls, j) && now - calls[j].now <= ttl
  }

  lemma OneCall(ttl: int, before: Seen, c: Call, key: string, now: int)
    requires c.now <= now
    ensures var (after, known) := SeenOrRecordIn(before, ttl, c.key, c.now);
      key in Unexpired(after, ttl, now)
      <==> key in Unexpired(before, ttl, now) || (c.key == key && !known && now - c.now <= ttl)
  {
  }

  lemma AcceptedWithinNext(ttl: int, calls: seq<Call>, n: nat, key: string, now: int)
    requires n < |calls|
    ensures AcceptedWithin(ttl, calls, n + 1, key, now)
       <==> AcceptedWithin(ttl, calls, n, key, now)
            || (calls[n].key == key && !Known(ttl, calls, n) && now - calls[n].now <= ttl)
  {
    hide Known;
  }

  lemma {:induction false} SeenIsRecentlyAccepted(ttl: int, calls: seq<Call>, n: nat, key: string, now: int)
    requires n <= |calls| && forall i :: 0 <= i < n ==> calls[i].now <= now
    ensures key in Unexpired(SeenAfter(ttl, calls[..n]), ttl, now) <==> AcceptedWithin(ttl, calls, n, key, now)
    decreases n
  {
    if n > 0 {
      var c := calls[n - 1];
      assert calls[..n][..n - 1] == calls[..n - 1] && calls[..n][n - 1] == c;
      OneCall(ttl, SeenAfter(ttl, calls[..n - 1]), c, key, now);
      SeenIsRecentlyAccepted(ttl, calls, n - 1, key, now);
      AcceptedWithinNext(ttl, calls, n - 1, key, now);
    }
  }

  // A key is known exactly when a call within the last ttl accepted it.
  lemma KnownIff(ttl: int, calls: seq<Call>, i: nat)
    requires Monotone(calls) && i < |calls|
    ensures Known(ttl, calls, i) <==> AcceptedWithin(ttl, calls, i, calls[i].key, calls[i].now)
  {
    SeenIsRecentlyAccepted(ttl, calls, i, calls[i].key, calls[i].now);
  }

  // Calls that accept the same key are more than ttl apart.
  lemma AcceptedCallsAreApart(ttl: int, calls: seq<Call>, i: nat, j: nat)
    requires Monotone(calls) && i < j < |calls| && calls[i].key == calls[j].key
    requires !Known(ttl, calls, i) && !Known(ttl, calls, j)
    ensures calls[j].now - calls[i].now > ttl
  {
    KnownIff(ttl, calls, j);
  }

  // ---- The receiver ------------------------------------------------------------------------------------

  // A registered provider. `verify` is the signature check it ends up with: its own verifier, the
  // default HMAC check when it has a secret, or none.
  datatype Provider = Provider(name: string, verify: Option<Request -> bool>)

  // A delivery as it reaches Handle: its body (None when it is too large to read), the
  // idempotency header ("" when absent) and the hash of the body in hexadecimal.
  datatype Request = Request(body: Option<string>, idempotencyKey: string, bodyHash: string)

  datatype Status = NotFound | BadRequest | Unauthorized | Conflict | BadGateway | Accepted

  function IdKey(provider: string, r: Request): string {
    if r.idempotencyKey == "" then provider + ":" + r.bodyHash else r.idempotencyKey
  }

  function StoreKey(provider: string, r: Request): string { provider + ":" + IdKey(provider, r) }

  class Receiver {
    var providers: map<string, Provider>
    const store: MemStore?
    var dispatched: seq<(string, string)>   // provider and idempotency key of each handler call

    constructor (store: MemStore?)
      ensures this.store == store && providers == map[] && dispatched == []
    {
      this.store := store;
      providers, dispatched := map[], [];
    }

    // A later registration of a name replaces the earlier one.
    method Register(p: Provider)
      modifies this`providers
      ensures providers == old(providers)[p.name := p]
    {
      providers := providers[p.name := p];
    }

    // The provider is registered, and its delivery readable and verified.
    predicate Passes(providerName: string, r: Request)
      reads this`providers
    {
      && providerName in providers && r.body.Some?
      && (providers[providerName].verify.Some? ==> providers[providerName].verify.value(r))
    }

    ghost function StoredTimes(): Seen
      reads this, store
    {
      if store == null then map[] else store.seen
    }

    // `handlerOk` is the result of the provider's handler, if it is called.
    method Handle(providerName: string, r: Request, now: int, handlerOk: bool) returns (status: Status)
      modifies this`dispatched, store
      ensures providerName !in providers ==> status == NotFound
      ensures providerName in providers && r.body.None? ==> status == BadRequest
      ensures providerName in providers && r.body.Some? ==>
        var verify := providers[providerName].verify;
        (verify.Some? && !verify.value(r) ==> status == Unauthorized)
      // What is refused so reaches neither store nor handler.
      ensures !Passes(providerName, r) ==>
        dispatched == old(dispatched) && (store != null ==> store.seen == old(store.seen))
      // What passes is known by its header or, without one, by the hash of its body.
      ensures Passes(providerName, r) ==>
        var idKey := if r.idempotencyKey != "" then r.idempotencyKey else providerName + ":" + r.bodyHash;
        var key := providerName + ":" + idKey;
        var known := store != null && key in old(StoredTimes()) && now - old(StoredTimes())[key] <= store.ttl;
        && status == (if known then Conflict else if handlerOk then Accepted else BadGateway)
        && dispatched == old(dispatched) + (if known then [] else [(providerName, idKey)])
        && (store != null ==>
             && (forall k :: k in store.seen <==>
                   k == key || (k in old(store.seen) && now - old(store.seen)[k] <= store.ttl))
             && (forall k :: k in store.seen ==>
                   store.seen[k] == if k == key && !known then now else old(store.seen)[k]))
    {
      if providerName !in providers { return NotFound; }
      var p := providers[providerName];
      if r.body.None? { return BadRequest; }
      if p.verify.Some? {
        if !p.verify.value(r) { return Unauthorized; }
      }
      var idKey := r.idempotencyKey;
      if idKey == "" {
        idKey := providerName + ":" + r.bodyHash;
      }
      if store != null {
        var known := store.SeenOrRecord(providerName + ":" + idKey, now);
        if known { return Conflict; }
      }
      dispatched := dispatched + [(providerName, idKey)];
      if !handlerOk { return BadGateway; }
      return Accepted;
    }
  }

  // ---- Runs of the receiver --------------------------------------------------------------------------------

  // A delivery that has passed the checks, with a store in place.
  datatype Delivery = Delivery(provider: string, request: Request, at: int, handlerOk: bool)

  function Lookups(ds: seq<Delivery>): seq<Call> {
    seq(|ds|, i requires 0 <= i < |ds| => Call(StoreKey(ds[i].provider, ds[i].request), ds[i].at))
  }

  // The handler runs for delivery i.
  ghost predicate Dispatched(ttl: int, ds: seq<Delivery>, i: nat)
    requires i < |ds|
  {
    !Known(ttl, Lookups(ds), i)
  }

  ghost predicate OnTime(ds: seq<Delivery>) {
    forall i, j :: 0 <= i < j < |ds| ==> ds[i].at <= ds[j].at
  }

  // Deliveries of one provider that count as one: with one header; without a header, with one body
  // hash; or where the header of one is the name and hash of the other.
  predicate SameKey(d: Delivery, e: Delivery) {
    && d.provider == e.provider
    && var (k, l) := (d.request.idempotencyKey, e.request.idempotencyKey);
       if k != "" && l != "" then k == l
       else if k == "" && l == "" then d.request.bodyHash == e.request.bodyHash
       else if l == "" then k == d.provider + ":" + e.request.bodyHash
       else l == d.provider + ":" + d.request.bodyHash
  }

  lemma SameKeyIff(d: Delivery, e: Delivery)
    ensures SameKey(d, e) <==> d.provider == e.provider && IdKey(d.provider, d.request) == IdKey(e.provider, e.request)
  {
    var p, x, y := d.provider + ":", d.request.bodyHash, e.request.bodyHash;
    assert (p + x)[|p|..] == x && (p + y)[|p|..] == y;
  }

  // And exactly those have one key in the store.
  lemma SameStoreKeyIff(d: Delivery, e: Delivery)
    requires d.provider == e.provider
    ensures StoreKey(d.provider, d.request) == StoreKey(e.provider, e.request) <==> SameKey(d, e)
  {
    SameKeyIff(d, e);
    hide SameKey, IdKey;
    var p, k, l := d.provider + ":", IdKey(d.provider, d.request), IdKey(e.provider, e.request);
    assert (p + k)[|p|..] == k && (p + l)[|p|..] == l;
  }

  // The handler runs at most once per provider and idempotency key in any window of one ttl,
  // whatever the handlers answer.
  lemma HandlerRunsOncePerWindow(ttl: int, ds: seq<Delivery>, i: nat, j: nat)
    requires OnTime(ds) && i < j < |ds| && Dispatched(ttl, ds, i) && Dispatched(ttl, ds, j)
    requires SameKey(ds[i], ds[j])
    ensures ds[j].at - ds[i].at > ttl
  {
    SameKeyIff(ds[i], ds[j]);
    AcceptedCallsAreApart(ttl, Lookups(ds), i, j);
  }

  // One provider name is another one, a colon and more.
  predicate ExtendedBy(p: string, q: string) { p + ":" <= q }

  // Two names can give one store key exactly when one extends the other by a colon.
  lemma NamesCollideIff(p: string, q: string)
    requires p != q
    ensures (exists k, l :: p + ":" + k == q + ":" + l) <==> ExtendedBy(p, q) || ExtendedBy(q, p)
  {
    if k, l :| p + ":" + k == q + ":" + l {
      OneExtendsTheOther(p, k, q, l);
    }
    if ExtendedBy(p, q) {
      assert p + ":" + (q[|p| + 1..] + ":") == q + ":" + "" by { ExtensionSplits(p, q, ""); }
    }
    if ExtendedBy(q, p) {
      assert p + ":" + "" == q + ":" + (p[|q| + 1..] + ":") by { ExtensionSplits(q, p, ""); }
    }
  }

  lemma ExtensionSplits(p: string, q: string, k: string)
    requires ExtendedBy(p, q)
    ensures p + ":" + (q[|p| + 1..] + ":" + k) == q + ":" + k
  {
    assert q == (p + ":") + q[|p| + 1..];
  }

  lemma OneExtendsTheOther(p: string, k: string, q: string, l: string)
    requires p + ":" + k == q + ":" + l
    ensures ExtendedBy(p, q) || ExtendedBy(q, p) || (p == q && k == l)
  {
    var s := p + ":" + k;
    assert s[..|p| + 1] == p + ":" && s[..|q| + 1] == q + ":";
    if |p| < |q| {
      assert q == s[..|q|] && p + ":" == q[..|p| + 1];
    } else if |q| < |p| {
      assert p == s[..|p|] && q + ":" == p[..|q| + 1];
    } else {
      assert p == s[..|p|] == q && k == s[|p| + 1..] == l;
    }
  }

  // Turned away exactly when the handler ran for the same provider and key within the last ttl.
  ghost predicate TurnedAwayRightly(ttl: int, ds: seq<Delivery>, i: nat)
    requires i < |ds|
  {
    !Dispatched(ttl, ds, i) <==>
      exists j :: 0 <= j < i && Dispatched(ttl, ds, j) && SameKey(ds[j], ds[i]) && ds[i].at - ds[j].at <= ttl
  }

  // When no provider's name extends another's by a colon, every delivery is turned away rightly.
  lemma DuplicateIff(ttl: int, ds: seq<Delivery>, i: nat)
    requires OnTime(ds) && i < |ds|
    requires forall j :: 0 <= j < i ==>
      !ExtendedBy(ds[j].provider, ds[i].provider) && !ExtendedBy(ds[i].provider, ds[j].provider)
    ensures TurnedAwayRightly(ttl, ds, i)
  {
    var calls := Lookups(ds);
    KnownIff(ttl, calls, i);
    forall j | 0 <= j < i ensures calls[j].key == calls[i].key <==> SameKey(ds[j], ds[i]) { StoreKeysMatch(ds, j, i); }
    hide Known, SameKey, StoreKey, ExtendedBy;
    assert forall j :: 0 <= j < i ==> (Dispatched(ttl, ds, j) <==> !Known(ttl, calls, j)) && calls[j].now == ds[j].at;
  }

  lemma StoreKeysMatch(ds: seq<Delivery>, j: nat, i: nat)
    requires j < i < |ds|
    requires !ExtendedBy(ds[j].provider, ds[i].provider) && !ExtendedBy(ds[i].provider, ds[j].provider)
    ensures Lookups(ds)[j].key == Lookups(ds)[i].key <==> SameKey(ds[j], ds[i])
  {
    SameKeyIff(ds[j], ds[i]);
    var (p, k) := (ds[j].provider, IdKey(ds[j].provider, ds[j].request));
    var (q, l) := (ds[i].provider, IdKey(ds[i].provider, ds[i].request));
    hide ExtendedBy, IdKey, SameKey;
    if p + ":" + k == q + ":" + l { OneExtendsTheOther(p, k, q, l); }
  }

  // A delivery with an explicit key.
  function Keyed(provider: string, key: string, at: int): Delivery {
    Delivery(provider, Request(Some(""), key, ""), at, true)
  }

  // The key by which a delivery of the shorter name stands in for one of the longer name.
  function ClashingKey(p: string, q: string, key: string): string
    requires ExtendedBy(p, q)
  {
    q[|p| + 1..] + ":" + key
  }

  // Whenever one name extends another by a colon, each key of the longer name has a key of the
  // shorter one in whose ttl its deliveries are turned away without having been handled.
  lemma ColonsCollide(ttl: int, p: string, q: string, key: string, at: int)
    requires ttl >= 0 && ExtendedBy(p, q) && key != ""
    ensures var ds := [Keyed(p, ClashingKey(p, q, key), at), Keyed(q, key, at)];
      Dispatched(ttl, ds, 0) && !TurnedAwayRightly(ttl, ds, 1)
  {
    var ds := [Keyed(p, ClashingKey(p, q, key), at), Keyed(q, key, at)];
    var calls := Lookups(ds);
    ExtensionSplits(p, q, key);
    assert calls[0].key == calls[1].key;
    KnownIff(ttl, calls, 0);
    KnownIff(ttl, calls, 1);
    hide Known;
    assert !Known(ttl, calls, 0);
    assert AcceptedWithin(ttl, calls, 1, calls[1].key, calls[1].now);
    assert ds[0].provider != ds[1].provider;
  }

  ghost predicate FromProviders(ds: seq<Delivery>, providers: set<string>) {
    OnTime(ds) && forall i :: 0 <= i < |ds| ==> ds[i].provider in providers
  }

  lemma NegativeTtlForgets(ttl: int, ds: seq<Delivery>, i: nat)
    requires ttl < 0 && OnTime(ds) && i < |ds|
    ensures TurnedAwayRightly(ttl, ds, i)
  {
    KnownIff(ttl, Lookups(ds), i);
    hide Known;
  }

  // De-duplication is per provider, on every run, exactly when no registered name extends
  // another by a colon (or the ttl is negative and nothing is ever a duplicate).
  lemma DuplicatesArePerProviderIff(ttl: int, providers: set<string>)
    ensures (forall ds: seq<Delivery>, i: nat :: FromProviders(ds, providers) && i < |ds| ==>
        TurnedAwayRightly(ttl, ds, i))
       <==> ttl < 0 || forall p, q :: p in providers && q in providers ==> !ExtendedBy(p, q)
  {
    hide TurnedAwayRightly, ExtendedBy;
    if ttl < 0 {
      forall ds: seq<Delivery>, i: nat | FromProviders(ds, providers) && i < |ds|
        ensures TurnedAwayRightly(ttl, ds, i)
      {
        NegativeTtlForgets(ttl, ds, i);
      }
    } else if forall p, q :: p in providers && q in providers ==> !ExtendedBy(p, q) {
      forall ds: seq<Delivery>, i: nat | FromProviders(ds, providers) && i < |ds|
        ensures TurnedAwayRightly(ttl, ds, i)
      {
        DuplicateIff(ttl, ds, i);
      }
    } else {
      var p, q :| p in providers && q in providers && ExtendedBy(p, q);
      var ds := [Keyed(p, ClashingKey(p, q, "k"), 0), Keyed(q, "k", 0)];
      ColonsCollide(ttl, p, q, "k", 0);
      assert FromProviders(ds, providers) && !TurnedAwayRightly(ttl, ds, 1);
    }
  }

  // A handler error does not forget the key: the sender's retry within the ttl is a duplicate.
  lemma RetryAfterErrorIsADuplicate(ttl: int, ds: seq<Delivery>, i: nat, j: nat)
    requires OnTime(ds) && i < j < |ds| && Dispatched(ttl, ds, i) && !ds[i].handlerOk
    requires ds[j].provider == ds[i].provider && ds[j].request == ds[i].request && ds[j].at - ds[i].at <= ttl
    ensures !Dispatched(ttl, ds, j)
  {
    if Dispatched(ttl, ds, j) {
      HandlerRunsOncePerWindow(ttl, ds, i, j);
    }
  }
}
