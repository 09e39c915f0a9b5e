// Per-client rate limiting with eviction of idle clients (middleware/ratelimit.go).
module RateLimit {
  import opened Wrappers

  // ---- The token bucket ---------------------------------------------------------------------
  // golang.org/x/time/rate, taken as given: the bucket starts full, refills at `rate` tokens a
  // second up to `burst`, and a request that finds a whole token takes it. A refused request
  // leaves the bucket as it was. Times are seconds.

  datatype Limits = Limits(rate: real, burst: int, ttl: real) {
    predicate Sane() { rate >= 0.0 && burst >= 0 }
  }

  datatype Bucket = Bucket(tokens: real, last: real)

  function Min(x: real, y: real): real { if x <= y then x else y }

  function Level(l: Limits, b: Bucket, now: real): real {
    var elapsed := if now < b.last then 0.0 else now - b.last;
    Min(l.burst as real, b.tokens + l.rate * elapsed)
  }

  function NewBucket(l: Limits, now: real): Bucket { Bucket(l.burst as real, now) }

  function Allow(l: Limits, b: Bucket, now: real): (Bucket, bool) {
    var level := Level(l, b, now);
    if l.burst >= 1 && level >= 1.0 then (Bucket(level - 1.0, now), true) else (b, false)
  }

  // ---- The limiter -----------------------------------------------------------------------------

  datatype Visitor = Visitor(bucket: Bucket, lastSeen: real)

  type Visitors = map<string, Visitor>

  function AllowIn(l: Limits, vs: Visitors, ip: string, now: real): (Visitors, bool) {
    var bucket := if ip in vs then vs[ip].bucket else NewBucket(l, now);
    var (after, allowed) := Allow(l, bucket, now);
    (vs[ip := Visitor(after, now)], allowed)
  }

  function EvictIn(l: Limits, vs: Visitors, now: real): Visitors {
    map ip | ip in vs && !(now - vs[ip].lastSeen > l.ttl) :: vs[ip]
  }

  class RateLimiter {
    const limits: Limits
    var visitors: Visitors

    // A zero ttl stands for five minutes.
    constructor (rate: real, burst: int, ttl: real)
      ensures limits == Limits(rate, burst, if ttl == 0.0 then 300.0 else ttl) && visitors == map[]
    {
      limits := Limits(rate, burst, if ttl == 0.0 then 300.0 else ttl);
      visitors := map[];
    }

    method AllowRequest(ip: string, now: real) returns (allowed: bool)
      modifies this
      ensures (visitors, allowed) == AllowIn(limits, old(visitors), ip, now)
      // Granted or not, the client was seen now, and no other is touched.
      ensures visitors.Keys == old(visitors).Keys + {ip} && visitors[ip].lastSeen == now
      ensures forall other :: other in old(visitors) && other != ip ==> visitors[other] == old(visitors)[other]
    {
      var v := if ip in visitors then visitors[ip] else Visitor(NewBucket(limits, now), now);
      visitors := visitors[ip := Visitor(v.bucket, now)];
      var (after, ok) := Allow(limits, v.bucket, now);
      visitors := visitors[ip := Visitor(after, now)];
      assert visitors == old(visitors)[ip := Visitor(after, now)];
      return ok;
    }

    method Evict(now: real)
      modifies this
      ensures visitors == EvictIn(limits, old(visitors), now)
      ensures forall ip :: ip in visitors <==>
        ip in old(visitors) && now - old(visitors)[ip].lastSeen <= limits.ttl
      ensures forall ip :: ip in visitors ==> visitors[ip] == old(visitors)[ip]
    {
      var todo := visitors.Keys;
      while todo != {}
        invariant visitors.Keys <= old(visitors).Keys && todo <= visitors.Keys
        invariant forall ip :: ip in visitors ==> visitors[ip] == old(visitors)[ip]
        invariant forall ip :: ip in visitors && ip !in todo ==> !(now - visitors[ip].lastSeen > limits.ttl)
        invariant forall ip :: ip in old(visitors) && !(now - old(visitors)[ip].lastSeen > limits.ttl) ==>
            ip in visitors
        decreases todo
      {
        var ip :| ip in todo;
        todo := todo - {ip};
        if now - visitors[ip].lastSeen > limits.ttl {
          visitors := visitors - {ip};
        }
      }
    }
  }

  // ---- Runs -------------------------------------------------------------------------------------

  datatype Event = Request(ip: string, at: real) | Eviction(at: real)

  // A clock that does not run backwards.
  ghost predicate Ordered(events: seq<Event>) {
    forall i, j :: 0 <= i < j < |events| ==> events[i].at <= events[j].at
  }

  // The decisions of a limiter; with `evicting` off, evictions do nothing.
  function Decisions(l: Limits, vs: Visitors, events: seq<Event>, evicting: bool): seq<bool>
    decreases |events|
  {
    if events == [] then []
    else match events[0]
      case Request(ip, at) =>
        var (after, allowed) := AllowIn(l, vs, ip, at);
        [allowed] + Decisions(l, after, events[1..], evicting)
      case Eviction(at) =>
        Decisions(l, if evicting then EvictIn(l, vs, at) else vs, events[1..], evicting)
  }

  // ---- Eviction is invisible when the bucket has had time to refill --------------------------------

  // A bucket (None: no entry, as good as a full one) that from now on behaves like another.
  ghost predicate Alike(l: Limits, a: Option<Bucket>, b: Option<Bucket>, now: real) {
    LevelOf(l, a, now) == LevelOf(l, b, now)
  }

  ghost function LevelOf(l: Limits, b: Option<Bucket>, now: real): real {
    match b case None => l.burst as real case Some(bucket) => Level(l, bucket, now)
  }

  ghost predicate Past(b: Option<Bucket>, now: real) { b.Some? ==> b.value.last <= now && b.value.tokens >= 0.0 }

  lemma RefillMonotone(rate: real, x: real, y: real)
    requires rate >= 0.0 && x <= y
    ensures rate * x <= rate * y
  {
  }

  lemma LevelLater(l: Limits, b: Bucket, now: real, later: real)
    requires l.Sane() && b.last <= now <= later
    ensures Level(l, b, later) == Min(l.burst as real, Level(l, b, now) + l.rate * (later - now))
  {
    RefillMonotone(l.rate, 0.0, later - now);
    assert l.rate * (later - b.last) == l.rate * (now - b.last) + l.rate * (later - now);
  }

  lemma AlikeLater(l: Limits, a: Option<Bucket>, b: Option<Bucket>, now: real, later: real)
    requires l.Sane() && Past(a, now) && Past(b, now) && now <= later && Alike(l, a, b, now)
    ensures Alike(l, a, b, later)
  {
    RefillMonotone(l.rate, 0.0, later - now);
    if a.Some? { LevelLater(l, a.value, now, later); }
    if b.Some? { LevelLater(l, b.value, now, later); }
  }

  function BucketOf(vs: Visitors, ip: string): Option<Bucket> {
    if ip in vs then Some(vs[ip].bucket) else None
  }

  // What every reachable table satisfies.
  ghost predicate Good(vs: Visitors, now: real) {
    forall ip :: ip in vs ==> vs[ip].bucket.tokens >= 0.0 && vs[ip].bucket.last <= vs[ip].lastSeen <= now
  }

  ghost predicate AllAlike(l: Limits, vs: Visitors, ws: Visitors, now: real) {
    forall ip :: Alike(l, BucketOf(vs, ip), BucketOf(ws, ip), now)
  }

  lemma AllAlikeLater(l: Limits, vs: Visitors, ws: Visitors, now: real, later: real)
    requires l.Sane() && Good(vs, now) && Good(ws, now) && AllAlike(l, vs, ws, now) && now <= later
    ensures Good(vs, later) && Good(ws, later) && AllAlike(l, vs, ws, later)
  {
    forall ip ensures Alike(l, BucketOf(vs, ip), BucketOf(ws, ip), later) {
      AlikeLater(l, BucketOf(vs, ip), BucketOf(ws, ip), now, later);
    }
  }

  lemma EvictionKeepsLevels(l: Limits, vs: Visitors, now: real, ip: string)
    requires l.Sane() && l.rate * l.ttl >= l.burst as real && Good(vs, now)
    ensures LevelOf(l, BucketOf(EvictIn(l, vs, now), ip), now) == LevelOf(l, BucketOf(vs, ip), now)
  {
    if ip in vs && ip !in EvictIn(l, vs, now) {
      RefillMonotone(l.rate, l.ttl, now - vs[ip].bucket.last);
    }
  }

  lemma AllowKeepsGood(l: Limits, vs: Visitors, ip: string, now: real)
    requires l.Sane() && Good(vs, now)
    ensures Good(AllowIn(l, vs, ip, now).0, now)
  {
  }

  // Alike tables give the same decision and stay alike.
  lemma AllowAlike(l: Limits, vs: Visitors, ws: Visitors, ip: string, now: real)
    requires l.Sane() && Good(vs, now) && Good(ws, now) && AllAlike(l, vs, ws, now)
    ensures AllowIn(l, vs, ip, now).1 == AllowIn(l, ws, ip, now).1
    ensures AllAlike(l, AllowIn(l, vs, ip, now).0, AllowIn(l, ws, ip, now).0, now)
  {
    assert Alike(l, BucketOf(vs, ip), BucketOf(ws, ip), now);
    assert Level(l, NewBucket(l, now), now) == l.burst as real;
    var vs', ws' := AllowIn(l, vs, ip, now).0, AllowIn(l, ws, ip, now).0;
    forall other ensures Alike(l, BucketOf(vs', other), BucketOf(ws', other), now) {
      assert Alike(l, BucketOf(vs, other), BucketOf(ws, other), now);
    }
  }

  ghost predicate NotBefore(events: seq<Event>, now: real) {
    Ordered(events) && forall i :: 0 <= i < |events| ==> now <= events[i].at
  }

  lemma {:induction false} SameDecisions(l: Limits, vs: Visitors, ws: Visitors, events: seq<Event>, now: real)
    requires l.Sane() && l.rate * l.ttl >= l.burst as real
    requires Good(vs, now) && Good(ws, now) && AllAlike(l, vs, ws, now) && NotBefore(events, now)
    ensures Decisions(l, vs, events, true) == Decisions(l, ws, events, false)
    decreases |events|
  {
    if events != [] {
      var at := events[0].at;
      AllAlikeLater(l, vs, ws, now, at);
      match events[0] {
        case Request(ip, _) =>
          AllowKeepsGood(l, vs, ip, at);
          AllowKeepsGood(l, ws, ip, at);
          AllowAlike(l, vs, ws, ip, at);
          SameDecisions(l, AllowIn(l, vs, ip, at).0, AllowIn(l, ws, ip, at).0, events[1..], at);
        case Eviction(_) =>
          var kept := EvictIn(l, vs, at);
          forall ip ensures Alike(l, BucketOf(kept, ip), BucketOf(ws, ip), at) {
            EvictionKeepsLevels(l, vs, at, ip);
            assert Alike(l, BucketOf(vs, ip), BucketOf(ws, ip), at);
          }
          SameDecisions(l, kept, ws, events[1..], at);
      }
    }
  }

  // ---- ... and only then ------------------------------------------------------------------------------

  function Requests(ip: string, at: real, n: nat): seq<Event> { seq(n, _ => Request(ip, at)) }

  function After(l: Limits, vs: Visitors, events: seq<Event>, evicting: bool): Visitors
    decreases |events|
  {
    if events == [] then vs
    else match events[0]
      case Request(ip, at) => After(l, AllowIn(l, vs, ip, at).0, events[1..], evicting)
      case Eviction(at) => After(l, if evicting then EvictIn(l, vs, at) else vs, events[1..], evicting)
  }

  lemma {:induction false} DecisionsConcat(l: Limits, vs: Visitors, a: seq<Event>, b: seq<Event>, evicting: bool)
    ensures Decisions(l, vs, a + b, evicting)
         == Decisions(l, vs, a, evicting) + Decisions(l, After(l, vs, a, evicting), b, evicting)
    decreases |a|
  {
    if a == [] {
      assert a + b == b;
    } else {
      assert (a + b)[0] == a[0] && (a + b)[1..] == a[1..] + b;
      match a[0] {
        case Request(ip, at) => DecisionsConcat(l, AllowIn(l, vs, ip, at).0, a[1..], b, evicting);
        case Eviction(at) => DecisionsConcat(l, if evicting then EvictIn(l, vs, at) else vs, a[1..], b, evicting);
      }
    }
  }

  ghost predicate AllGranted(ds: seq<bool>) { forall i :: 0 <= i < |ds| ==> ds[i] }

  lemma AllGrantedCons(d: bool, ds: seq<bool>)
    ensures AllGranted([d] + ds) <==> d && AllGranted(ds)
  {
    assert forall i :: 0 <= i < |ds| ==> ([d] + ds)[i + 1] == ds[i];
    assert ([d] + ds)[0] == d;
  }

  // A request is granted exactly when a whole token is there, and takes it.
  lemma OneRequest(l: Limits, vs: Visitors, ip: string, at: real)
    requires l.Sane() && l.burst >= 1
    ensures var (after, allowed) := AllowIn(l, vs, ip, at);
      var level := LevelOf(l, BucketOf(vs, ip), at);
      && level <= l.burst as real
      && (allowed <==> level >= 1.0)
      && LevelOf(l, BucketOf(after, ip), at) == (if allowed then level - 1.0 else level)
      && ip in after && (allowed ==> after[ip] == Visitor(Bucket(level - 1.0, at), at))
      && forall other :: other != ip ==> BucketOf(after, other) == BucketOf(vs, other)
  {
    assert Level(l, NewBucket(l, at), at) == l.burst as real;
  }

  lemma RequestsCons(ip: string, at: real, n: nat)
    requires n > 0
    ensures Requests(ip, at, n)[0] == Request(ip, at) && Requests(ip, at, n)[1..] == Requests(ip, at, n - 1)
  {
  }

  // n requests at one instant are all granted when n tokens are there, and otherwise not all.
  lemma {:induction false} Drain(l: Limits, vs: Visitors, ip: string, at: real, n: nat, evicting: bool)
    requires l.Sane() && l.burst >= 1
    ensures var ds, level := Decisions(l, vs, Requests(ip, at, n), evicting), LevelOf(l, BucketOf(vs, ip), at);
      && |ds| == n
      && (AllGranted(ds) <==> n == 0 || level >= n as real)
      && (n > 0 && level >= n as real ==>
           var after := After(l, vs, Requests(ip, at, n), evicting);
           ip in after && after[ip] == Visitor(Bucket(level - n as real, at), at))
    decreases n
  {
    if n > 0 {
      RequestsCons(ip, at, n);
      OneRequest(l, vs, ip, at);
      hide AllowIn, LevelOf, BucketOf, Requests;
      var (next, allowed) := AllowIn(l, vs, ip, at);
      Drain(l, next, ip, at, n - 1, evicting);
      AllGrantedCons(allowed, Decisions(l, next, Requests(ip, at, n - 1), evicting));
      if n == 1 { assert Requests(ip, at, 0) == [] by { RequestsNone(ip, at); } }
    }
  }

  lemma RequestsNone(ip: string, at: real)
    ensures Requests(ip, at, 0) == []
  {
  }

  // A time by which an idle client is evicted although its bucket is not full again.
  function TooSoon(l: Limits): real
    requires l.Sane()
  {
    var idle := if l.ttl < 0.0 then 0.0 else l.ttl;
    if l.rate == 0.0 then idle + 1.0 else (idle + l.burst as real / l.rate) / 2.0
  }

  lemma TooSoonIsTooSoon(l: Limits)
    requires l.Sane() && l.burst >= 1 && l.rate * l.ttl < l.burst as real
    ensures TooSoon(l) > l.ttl && TooSoon(l) >= 0.0 && l.rate * TooSoon(l) < l.burst as real
  {
    if l.rate > 0.0 {
      var full := l.burst as real / l.rate;
      assert l.rate * full == l.burst as real;
      var idle := if l.ttl < 0.0 then 0.0 else l.ttl;
      if full <= idle {
        RefillMonotone(l.rate, full, idle);
        assert l.rate * idle >= l.burst as real;
      }
      assert l.rate * TooSoon(l) == (l.rate * idle + l.rate * full) / 2.0;
    }
  }

  // Use up the bucket, let the entry be evicted too soon, and ask for a full burst again.
  function Witness(l: Limits): seq<Event>
    requires l.Sane()
  {
    Requests("client", 0.0, l.burst) + ([Eviction(TooSoon(l))] + Requests("client", TooSoon(l), l.burst))
  }

  lemma WitnessIsOrdered(l: Limits)
    requires l.Sane() && TooSoon(l) >= 0.0
    ensures Ordered(Witness(l))
  {
  }

  // After the first burst nothing is left, with or without evictions.
  lemma FirstBurst(l: Limits, evicting: bool)
    requires l.Sane() && l.burst >= 1
    ensures var first := Requests("client", 0.0, l.burst);
      |Decisions(l, map[], first, evicting)| == l.burst
      && var after := After(l, map[], first, evicting);
         "client" in after && after["client"] == Visitor(Bucket(0.0, 0.0), 0.0)
  {
    Drain(l, map[], "client", 0.0, l.burst, evicting);
  }

  // The second burst is granted in full exactly when the entry was evicted.
  lemma SecondBurst(l: Limits, vs: Visitors, evicting: bool)
    requires l.Sane() && l.burst >= 1 && l.rate * l.ttl < l.burst as real
    requires "client" in vs && vs["client"] == Visitor(Bucket(0.0, 0.0), 0.0)
    ensures AllGranted(Decisions(l, vs, [Eviction(TooSoon(l))] + Requests("client", TooSoon(l), l.burst), evicting))
           <==> evicting
  {
    TooSoonIsTooSoon(l);
    var t := TooSoon(l);
    var next := if evicting then EvictIn(l, vs, t) else vs;
    assert evicting ==> "client" !in next;
    assert !evicting ==> Level(l, Bucket(0.0, 0.0), t) == l.rate * t;
    Drain(l, next, "client", t, l.burst, evicting);
    assert ([Eviction(t)] + Requests("client", t, l.burst))[1..] == Requests("client", t, l.burst);
  }

  lemma EvictionShows(l: Limits)
    requires l.Sane() && l.burst >= 1 && l.rate * l.ttl < l.burst as real
    ensures Ordered(Witness(l))
    ensures Decisions(l, map[], Witness(l), true) != Decisions(l, map[], Witness(l), false)
  {
    TooSoonIsTooSoon(l);
    WitnessIsOrdered(l);
    var first, second := Requests("client", 0.0, l.burst),
      [Eviction(TooSoon(l))] + Requests("client", TooSoon(l), l.burst);
    assert Witness(l) == first + second;
    hide *;
    FirstBurst(l, true);
    FirstBurst(l, false);
    SecondBurst(l, After(l, map[], first, true), true);
    SecondBurst(l, After(l, map[], first, false), false);
    DecisionsConcat(l, map[], first, second, true);
    DecisionsConcat(l, map[], first, second, false);
    assert Decisions(l, map[], first + second, true)[l.burst..]
        == Decisions(l, After(l, map[], first, true), second, true);
    assert Decisions(l, map[], first + second, false)[l.burst..]
        == Decisions(l, After(l, map[], first, false), second, false);
  }

  // A bucket that holds nothing refuses everything.
  lemma {:induction false} EmptyBucketsRefuse(l: Limits, vs: Visitors, ws: Visitors, events: seq<Event>, client: string)
    requires l.burst < 1
    ensures Decisions(l, vs, events, true) == Decisions(l, ws, events, false)
    ensures forall evicting :: Granted(l, vs, events, evicting, client) == 0
    decreases |events|
  {
    if events != [] {
      match events[0] {
        case Request(ip, at) =>
          EmptyBucketsRefuse(l, AllowIn(l, vs, ip, at).0, AllowIn(l, ws, ip, at).0, events[1..], client);
        case Eviction(at) =>
          EmptyBucketsRefuse(l, EvictIn(l, vs, at), ws, events[1..], client);
          EmptyBucketsRefuse(l, vs, ws, events[1..], client);
      }
    }
  }

  // Eviction never changes a decision exactly when an idle period of one ttl refills the bucket,
  // or there is nothing to refill.
  lemma EvictionIsInvisibleIff(l: Limits)
    requires l.rate >= 0.0
    ensures (forall events: seq<Event> :: Ordered(events) ==>
        Decisions(l, map[], events, true) == Decisions(l, map[], events, false))
       <==> l.burst < 1 || l.rate * l.ttl >= l.burst as real
  {
    if l.burst < 1 {
      forall events: seq<Event> ensures Decisions(l, map[], events, true) == Decisions(l, map[], events, false) {
        EmptyBucketsRefuse(l, map[], map[], events, "");
      }
    } else if l.rate * l.ttl >= l.burst as real {
      forall events: seq<Event> | Ordered(events)
        ensures Decisions(l, map[], events, true) == Decisions(l, map[], events, false)
      {
        if events != [] { SameDecisions(l, map[], map[], events, events[0].at); }
      }
    } else {
      EvictionShows(l);
    }
  }

  // ---- The rate bound -----------------------------------------------------------------------------------

  // Requests of one client that are granted.
  function Granted(l: Limits, vs: Visitors, events: seq<Event>, evicting: bool, client: string): nat
    decreases |events|
  {
    if events == [] then 0
    else match events[0]
      case Request(ip, at) =>
        var (after, allowed) := AllowIn(l, vs, ip, at);
        (if ip == client && allowed then 1 else 0) + Granted(l, after, events[1..], evicting, client)
      case Eviction(at) =>
        Granted(l, if evicting then EvictIn(l, vs, at) else vs, events[1..], evicting, client)
  }

  // The tokens that a bucket earns at most over a time.
  ghost function Refill(l: Limits, from: real, to: real): real { l.rate * (to - from) }

  lemma RefillSplits(l: Limits, from: real, mid: real, to: real)
    ensures Refill(l, from, to) == Refill(l, from, mid) + Refill(l, mid, to)
  {
  }

  lemma LevelGrows(l: Limits, b: Option<Bucket>, now: real, at: real)
    requires l.Sane() && Past(b, now) && now <= at
    ensures 0.0 <= LevelOf(l, b, at) <= LevelOf(l, b, now) + Refill(l, now, at)
  {
    NoNegativeRefill(l, now, at);
    if b.Some? {
      LevelLater(l, b.value, now, at);
      NoNegativeRefill(l, b.value.last, at);
      NoNegativeRefill(l, b.value.last, now);
      assert Level(l, b.value, at) == Min(l.burst as real, b.value.tokens + Refill(l, b.value.last, at));
    }
  }

  lemma NoNegativeRefill(l: Limits, from: real, to: real)
    requires l.Sane() && from <= to
    ensures Refill(l, from, to) >= 0.0
  {
  }

  lemma {:induction false} GrantedBound(
      l: Limits, vs: Visitors, events: seq<Event>, evicting: bool, client: string, now: real, until: real)
    requires l.Sane() && l.burst >= 1 && (evicting ==> l.rate * l.ttl >= l.burst as real)
    requires Good(vs, now) && NotBefore(events, now) && now <= until
    requires forall i :: 0 <= i < |events| ==> events[i].at <= until
    ensures Granted(l, vs, events, evicting, client) as real
         <= LevelOf(l, BucketOf(vs, client), now) + Refill(l, now, until)
    decreases |events|
  {
    if events == [] {
      LevelGrows(l, BucketOf(vs, client), now, until);
    } else {
      var at, next := events[0].at, StateAfter(l, vs, events[0], evicting);
      StepBound(l, vs, events[0], evicting, client, now);
      RefillSplits(l, now, at, until);
      GrantedBound(l, next, events[1..], evicting, client, at, until) by {
        assert NotBefore(events[1..], at);
        hide *;
      }
      GrantedCons(l, vs, events, evicting, client);
      hide *;
    }
  }

  lemma GrantedCons(l: Limits, vs: Visitors, events: seq<Event>, evicting: bool, client: string)
    requires events != []
    ensures Granted(l, vs, events, evicting, client) as real
         == GrantedAt(l, vs, events[0], client)
            + Granted(l, StateAfter(l, vs, events[0], evicting), events[1..], evicting, client) as real
  {
  }

  // One when the event is a granted request of the client.
  ghost function GrantedAt(l: Limits, vs: Visitors, event: Event, client: string): real {
    if event.Request? && event.ip == client && AllowIn(l, vs, client, event.at).1 then 1.0 else 0.0
  }

  function StateAfter(l: Limits, vs: Visitors, event: Event, evicting: bool): Visitors {
    match event
    case Request(ip, at) => AllowIn(l, vs, ip, at).0
    case Eviction(at) => if evicting then EvictIn(l, vs, at) else vs
  }

  // One event: what the client is granted comes out of its level.
  lemma StepBound(l: Limits, vs: Visitors, event: Event, evicting: bool, client: string, now: real)
    requires l.Sane() && l.burst >= 1 && (evicting ==> l.rate * l.ttl >= l.burst as real)
    requires Good(vs, now) && now <= event.at
    ensures var next := StateAfter(l, vs, event, evicting);
      && Good(next, event.at)
      && GrantedAt(l, vs, event, client) + LevelOf(l, BucketOf(next, client), event.at)
         <= LevelOf(l, BucketOf(vs, client), now) + Refill(l, now, event.at)
  {
    LevelGrows(l, BucketOf(vs, client), now, event.at);
    hide Refill, Level;
    match event {
      case Request(ip, at) =>
        AllowKeepsGood(l, vs, ip, at);
        OneRequest(l, vs, ip, at);
      case Eviction(at) =>
        if evicting { EvictionKeepsLevels(l, vs, at, client); }
    }
  }

  lemma {:induction false} ReachableIsGood(
      l: Limits, vs: Visitors, events: seq<Event>, evicting: bool, now: real, until: real)
    requires l.Sane() && Good(vs, now) && NotBefore(events, now) && now <= until
    requires forall i :: 0 <= i < |events| ==> events[i].at <= until
    ensures Good(After(l, vs, events, evicting), until)
    decreases |events|
  {
    if events != [] {
      match events[0] {
        case Request(ip, at) =>
          AllowKeepsGood(l, vs, ip, at);
          ReachableIsGood(l, AllowIn(l, vs, ip, at).0, events[1..], evicting, at, until);
        case Eviction(at) =>
          ReachableIsGood(l, if evicting then EvictIn(l, vs, at) else vs, events[1..], evicting, at, until);
      }
    }
  }

  lemma SplitIsOrdered(before: seq<Event>, window: seq<Event>)
    requires window != [] && Ordered(before + window)
    ensures Ordered(before) && NotBefore(window, window[0].at)
    ensures forall i :: 0 <= i < |before| ==> before[i].at <= window[0].at
    ensures forall i :: 0 <= i < |window| ==> window[i].at <= window[|window| - 1].at
  {
    var events := before + window;
    assert forall i :: 0 <= i < |before| ==> before[i] == events[i];
    assert forall i :: 0 <= i < |window| ==> window[i] == events[|before| + i];
  }

  lemma WindowRefill(l: Limits, before: seq<Event>, window: seq<Event>, evicting: bool, client: string)
    requires l.Sane() && l.burst >= 1 && (evicting ==> l.rate * l.ttl >= l.burst as real)
    requires window != [] && Ordered(before + window)
    ensures Granted(l, After(l, map[], before, evicting), window, evicting, client) as real
         <= l.burst as real + Refill(l, window[0].at, window[|window| - 1].at)
  {
    var start, end := window[0].at, window[|window| - 1].at;
    SplitIsOrdered(before, window);
    if before != [] { ReachableIsGood(l, map[], before, evicting, before[0].at, start); }
    var vs := After(l, map[], before, evicting);
    LevelIsCapped(l, BucketOf(vs, client), start);
    assert Good(vs, start);
    hide *;
    GrantedBound(l, vs, window, evicting, client, start, end);
  }

  // One client gets at most burst + rate * length requests in any window of that length of any
  // run, and none when the burst is not positive.
  lemma WindowBound(l: Limits, before: seq<Event>, window: seq<Event>, evicting: bool, client: string, length: real)
    requires l.rate >= 0.0 && (evicting ==> l.rate * l.ttl >= l.burst as real)
    requires window != [] && Ordered(before + window) && window[|window| - 1].at - window[0].at <= length
    ensures var granted := Granted(l, After(l, map[], before, evicting), window, evicting, client);
      if l.burst < 1 then granted == 0 else granted as real <= l.burst as real + l.rate * length
  {
    if l.burst < 1 {
      EmptyBucketsRefuse(l, After(l, map[], before, evicting), map[], window, client);
    } else {
      WindowRefill(l, before, window, evicting, client);
      RefillAtMost(l, window[0].at, window[|window| - 1].at, length);
      hide *;
    }
  }

  lemma RefillAtMost(l: Limits, from: real, to: real, length: real)
    requires l.Sane() && to - from <= length
    ensures Refill(l, from, to) <= l.rate * length
  {
    RefillMonotone(l.rate, to - from, length);
  }

  lemma LevelIsCapped(l: Limits, b: Option<Bucket>, now: real)
    ensures LevelOf(l, b, now) <= l.burst as real
  {
  }
}
