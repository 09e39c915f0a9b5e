// What the rate limiter grants, and whom it remembers, said of the events of a run alone
// (middleware/ratelimit.go).
module RateLaws {
  import opened RateLimit
  import opened Wrappers

  // ---- Who is remembered ----------------------------------------------------------------------------

  predicate IsRequest(e: Event, ip: string) { e.Request? && e.ip == ip }

  // Request k of the client keeps it: no later eviction comes more than the ttl after it.
  ghost predicate KeepsClient(l: Limits, events: seq<Event>, ip: string, k: nat) {
    && k < |events| && IsRequest(events[k], ip)
    && forall j :: k < j < |events| && events[j].Eviction? ==> events[j].at - events[k].at <= l.ttl
  }

  lemma {:induction false} AfterLast(l: Limits, vs: Visitors, events: seq<Event>, last: Event, evicting: bool)
    ensures After(l, vs, events + [last], evicting) == StateAfter(l, After(l, vs, events, evicting), last, evicting)
    decreases |events|
  {
    hide AllowIn, EvictIn;
    if events == [] {
      assert [] + [last] == [last] && [last][1..] == [];
    } else {
      assert (events + [last])[0] == events[0] && (events + [last])[1..] == events[1..] + [last];
      AfterLast(l, StateAfter(l, vs, events[0], evicting), events[1..], last, evicting);
    }
  }

  // The last request of the client came at the time.
  ghost predicate LastRequestAt(events: seq<Event>, ip: string, at: real) {
    exists k :: 0 <= k < |events| && IsRequest(events[k], ip) && events[k].at == at
      && forall j :: k < j < |events| ==> !IsRequest(events[j], ip)
  }

  lemma {:induction false} SeenAtLastRequest(l: Limits, events: seq<Event>, ip: string)
    ensures var vs := After(l, map[], events, true); ip in vs ==> LastRequestAt(events, ip, vs[ip].lastSeen)
    decreases |events|
  {
    if events != [] {
      var init, last := events[..|events| - 1], events[|events| - 1];
      assert events == init + [last];
      SeenAtLastRequest(l, init, ip);
      AfterLast(l, map[], init, last, true);
      var before, after := After(l, map[], init, true), After(l, map[], events, true);
      hide After;
      if ip in after {
        if IsRequest(last, ip) {
          assert events[|events| - 1] == last;
        } else {
          assert ip in before && after[ip] == before[ip];
          var k :| 0 <= k < |init| && IsRequest(init[k], ip) && init[k].at == before[ip].lastSeen
            && forall j :: k < j < |init| ==> !IsRequest(init[j], ip);
          assert events[k] == init[k];
        }
      }
    }
  }

  // A client is remembered exactly when it made a request, granted or not, that no later eviction
  // came more than the ttl after.
  lemma {:induction false} RememberedIff(l: Limits, events: seq<Event>, ip: string)
    requires Ordered(events)
    ensures ip in After(l, map[], events, true) <==> exists k: nat :: KeepsClient(l, events, ip, k)
    decreases |events|
  {
    if events != [] {
      var init, last := events[..|events| - 1], events[|events| - 1];
      assert events == init + [last];
      RememberedIff(l, init, ip);
      SeenAtLastRequest(l, init, ip);
      AfterLast(l, map[], init, last, true);
      var before, after := After(l, map[], init, true), After(l, map[], events, true);
      hide After, AllowIn;
      match last {
        case Request(client, at) =>
          OneMoreRequest(l, init, last, ip);
          RequestIsSeen(l, before, client, at);
        case Eviction(at) =>
          assert ip in after <==> ip in before && at - before[ip].lastSeen <= l.ttl;
          OneMoreEviction(l, init, last, ip, if ip in before then Some(before[ip].lastSeen) else None);
      }
    }
  }

  lemma RequestIsSeen(l: Limits, vs: Visitors, ip: string, at: real)
    ensures AllowIn(l, vs, ip, at).0.Keys == vs.Keys + {ip}
  {
  }

  lemma OneMoreRequest(l: Limits, init: seq<Event>, last: Event, ip: string)
    requires last.Request?
    ensures var events := init + [last];
      (exists k: nat :: KeepsClient(l, events, ip, k)) <==>
        last.ip == ip || exists k: nat :: KeepsClient(l, init, ip, k)
  {
    var events := init + [last];
    assert forall k :: 0 <= k < |init| ==> events[k] == init[k];
    if last.ip == ip { assert KeepsClient(l, events, ip, |init|); }
    if k: nat :| KeepsClient(l, init, ip, k) { assert KeepsClient(l, events, ip, k); }
    if last.ip != ip {
      if k: nat :| KeepsClient(l, events, ip, k) { assert KeepsClient(l, init, ip, k); }
    }
  }

  lemma OneMoreEviction(l: Limits, init: seq<Event>, last: Event, ip: string, seen: Option<real>)
    requires last.Eviction? && Ordered(init + [last])
    requires seen.Some? <==> exists k: nat :: KeepsClient(l, init, ip, k)
    requires seen.Some? ==> LastRequestAt(init, ip, seen.value)
    ensures var events := init + [last];
      (exists k: nat :: KeepsClient(l, events, ip, k)) <==> seen.Some? && last.at - seen.value <= l.ttl
  {
    var events := init + [last];
    assert forall k :: 0 <= k < |init| ==> events[k] == init[k];
    assert events[|init|] == last;
    if seen.Some? {
      var k0 :| 0 <= k0 < |init| && IsRequest(init[k0], ip) && init[k0].at == seen.value
        && forall j :: k0 < j < |init| ==> !IsRequest(init[j], ip);
      if last.at - seen.value <= l.ttl { assert KeepsClient(l, events, ip, k0); }
      if k: nat :| KeepsClient(l, events, ip, k) { assert k <= k0; }
    }
    if k: nat :| KeepsClient(l, events, ip, k) { assert KeepsClient(l, init, ip, k); }
  }

  // ---- What is granted -----------------------------------------------------------------------------

  // Event k is a request that is granted, in a run without evictions.
  ghost predicate GrantAt(l: Limits, events: seq<Event>, k: nat)
    requires k < |events|
  {
    events[k].Request? && AllowIn(l, After(l, map[], events[..k], false), events[k].ip, events[k].at).1
  }

  // Requests of the client granted from event j on, before event k.
  ghost function Grants(l: Limits, events: seq<Event>, ip: string, j: nat, k: nat): nat
    requires k <= |events|
    decreases k
  {
    if k <= j then 0
    else
      Grants(l, events, ip, j, k - 1) + if IsRequest(events[k - 1], ip) && GrantAt(l, events, k - 1) then 1 else 0
  }

  // What the burst and the rate allow the client from request j on up to a time, and what is left of it.
  ghost function Left(l: Limits, events: seq<Event>, ip: string, j: nat, k: nat, at: real): real
    requires j < |events| && k <= |events|
  {
    l.burst as real + Refill(l, events[j].at, at) - Grants(l, events, ip, j, k) as real
  }

  // The level is the least of these.
  ghost predicate LevelIsLeast(l: Limits, events: seq<Event>, ip: string, k: nat, at: real)
    requires k <= |events|
  {
    var level := LevelOf(l, BucketOf(After(l, map[], events[..k], false), ip), at);
    && level <= l.burst as real
    && (forall j :: 0 <= j < k && IsRequest(events[j], ip) ==> level <= Left(l, events, ip, j, k, at))
    && (level == l.burst as real
        || exists j :: 0 <= j < k && IsRequest(events[j], ip) && level == Left(l, events, ip, j, k, at))
  }

  // One when event k is a granted request of the client.
  ghost function Taken(l: Limits, events: seq<Event>, ip: string, k: nat): nat
    requires k < |events|
  {
    if IsRequest(events[k], ip) && GrantAt(l, events, k) then 1 else 0
  }

  lemma StateAt(l: Limits, events: seq<Event>, k: nat)
    requires k < |events|
    ensures After(l, map[], events[..k + 1], false)
         == StateAfter(l, After(l, map[], events[..k], false), events[k], false)
  {
    assert events[..k + 1] == events[..k] + [events[k]];
    AfterLast(l, map[], events[..k], events[k], false);
    hide After, StateAfter;
  }

  lemma TablesAreGood(l: Limits, events: seq<Event>, k: nat)
    requires l.Sane() && Ordered(events) && k < |events|
    ensures Good(After(l, map[], events[..k], false), events[k].at)
  {
    if k > 0 {
      assert events[..k][0] == events[0] && NotBefore(events[..k], events[0].at);
      ReachableIsGood(l, map[], events[..k], false, events[0].at, events[k].at);
    }
  }

  // What one event does to the level of a client, seen at a later time.
  lemma LevelAfter(l: Limits, events: seq<Event>, ip: string, k: nat, at: real)
    requires l.Sane() && l.burst >= 1 && Ordered(events) && k < |events| && events[k].at <= at
    ensures var before := LevelOf(l, BucketOf(After(l, map[], events[..k], false), ip), events[k].at);
      LevelOf(l, BucketOf(After(l, map[], events[..k + 1], false), ip), at)
      == Min(l.burst as real, before - Taken(l, events, ip, k) as real + Refill(l, events[k].at, at))
    ensures IsRequest(events[k], ip) ==>
      (GrantAt(l, events, k) <==> LevelOf(l, BucketOf(After(l, map[], events[..k], false), ip), events[k].at) >= 1.0)
  {
    var a, vs := events[k].at, After(l, map[], events[..k], false);
    var ws := After(l, map[], events[..k + 1], false);
    StateAt(l, events, k);
    TablesAreGood(l, events, k);
    EventTakes(l, vs, events[k], ip);
    assert Taken(l, events, ip, k) == if IsRequest(events[k], ip) && AllowIn(l, vs, ip, a).1 then 1 else 0;
    hide After, AllowIn, StateAfter, Refill;
    LevelGrowsTo(l, BucketOf(ws, ip), a, at);
  }

  // A granted request takes one from the level of its client; nothing else changes a level at once.
  lemma EventTakes(l: Limits, vs: Visitors, e: Event, ip: string)
    requires l.Sane() && l.burst >= 1 && Good(vs, e.at)
    ensures var ws := StateAfter(l, vs, e, false);
      var level := LevelOf(l, BucketOf(vs, ip), e.at);
      && Past(BucketOf(ws, ip), e.at)
      && LevelOf(l, BucketOf(ws, ip), e.at)
         == level - (if IsRequest(e, ip) && AllowIn(l, vs, ip, e.at).1 then 1.0 else 0.0)
      && (IsRequest(e, ip) ==> (AllowIn(l, vs, ip, e.at).1 <==> level >= 1.0))
  {
    if e.Request? {
      OneRequest(l, vs, e.ip, e.at);
      AllowKeepsGood(l, vs, e.ip, e.at);
      hide AllowIn, Level;
    }
  }

  lemma LevelGrowsTo(l: Limits, b: Option<Bucket>, now: real, at: real)
    requires l.Sane() && Past(b, now) && now <= at
    ensures LevelOf(l, b, at) == Min(l.burst as real, LevelOf(l, b, now) + Refill(l, now, at))
  {
    NoNegativeRefill(l, now, at);
    if b.Some? { LevelLater(l, b.value, now, at); }
    hide Level;
  }

  lemma LeftLater(l: Limits, events: seq<Event>, ip: string, j: nat, k: nat, at: real)
    requires j <= k < |events|
    ensures Left(l, events, ip, j, k + 1, at)
         == Left(l, events, ip, j, k, events[k].at) - Taken(l, events, ip, k) as real + Refill(l, events[k].at, at)
  {
    RefillSplits(l, events[j].at, events[k].at, at);
    hide Refill, GrantAt;
  }

  lemma LeftAtOnce(l: Limits, events: seq<Event>, ip: string, k: nat)
    requires k < |events|
    ensures Left(l, events, ip, k, k, events[k].at) == l.burst as real
  {
  }

  lemma {:induction false} LevelsAreLeast(l: Limits, events: seq<Event>, ip: string, k: nat, at: real)
    requires l.Sane() && l.burst >= 1 && Ordered(events) && k <= |events| && (k > 0 ==> events[k - 1].at <= at)
    ensures LevelIsLeast(l, events, ip, k, at)
    decreases k
  {
    if k > 0 {
      var n := k - 1;
      LevelsAreLeast(l, events, ip, n, events[n].at);
      LevelAfter(l, events, ip, n, at);
      LeftAtOnce(l, events, ip, n);
      forall j: nat | j <= n
        ensures Left(l, events, ip, j, k, at)
             == Left(l, events, ip, j, n, events[n].at) - Taken(l, events, ip, n) as real + Refill(l, events[n].at, at)
      {
        LeftLater(l, events, ip, j, n, at);
      }
      NoNegativeRefill(l, events[n].at, at);
      assert !IsRequest(events[n], ip) ==> Taken(l, events, ip, n) == 0;
      hide LevelOf, Left, After, Refill, Taken;
      OneMoreIsLeast(l, events, ip, n, at);
    }
  }

  lemma OneMoreIsLeast(l: Limits, events: seq<Event>, ip: string, n: nat, at: real)
    requires n < |events| && LevelIsLeast(l, events, ip, n, events[n].at) && Refill(l, events[n].at, at) >= 0.0
    requires var before := LevelOf(l, BucketOf(After(l, map[], events[..n], false), ip), events[n].at);
      LevelOf(l, BucketOf(After(l, map[], events[..n + 1], false), ip), at)
      == Min(l.burst as real, before - Taken(l, events, ip, n) as real + Refill(l, events[n].at, at))
    requires Left(l, events, ip, n, n, events[n].at) == l.burst as real
    requires !IsRequest(events[n], ip) ==> Taken(l, events, ip, n) == 0
    requires forall j: nat :: j <= n ==>
      Left(l, events, ip, j, n + 1, at)
      == Left(l, events, ip, j, n, events[n].at) - Taken(l, events, ip, n) as real + Refill(l, events[n].at, at)
    ensures LevelIsLeast(l, events, ip, n + 1, at)
  {
    hide LevelOf, Left, After, Refill, Taken;
    var level := LevelOf(l, BucketOf(After(l, map[], events[..n + 1], false), ip), at);
    var before := LevelOf(l, BucketOf(After(l, map[], events[..n], false), ip), events[n].at);
    if level < l.burst as real {
      if before == l.burst as real {
        assert IsRequest(events[n], ip) && level == Left(l, events, ip, n, n + 1, at);
      } else {
        var j :| 0 <= j < n && IsRequest(events[j], ip) && before == Left(l, events, ip, j, n, events[n].at);
        assert level == Left(l, events, ip, j, n + 1, at);
      }
    }
  }

  // With one more request at event k, the window from event j on holds no more granted requests of the
  // client than the burst and what the rate earns over it.
  ghost predicate FitsWindow(l: Limits, events: seq<Event>, ip: string, j: nat, k: nat)
    requires j <= k < |events|
  {
    Grants(l, events, ip, j, k) as real + 1.0 <= l.burst as real + l.rate * (events[k].at - events[j].at)
  }

  // A request is granted exactly when it fits every window that begins with a request of its client.
  lemma GrantedIff(l: Limits, events: seq<Event>, k: nat)
    requires l.rate >= 0.0 && Ordered(events) && k < |events| && events[k].Request?
    ensures GrantAt(l, events, k) <==>
      forall j :: 0 <= j <= k && IsRequest(events[j], events[k].ip) ==> FitsWindow(l, events, events[k].ip, j, k)
  {
    var ip := events[k].ip;
    GrantedIffLeft(l, events, k);
    forall j | 0 <= j <= k
      ensures FitsWindow(l, events, ip, j, k) <==> Left(l, events, ip, j, k, events[k].at) >= 1.0
    {
      WindowIsLeft(l, events, ip, j, k);
    }
    hide FitsWindow, Left, GrantAt;
  }

  lemma WindowIsLeft(l: Limits, events: seq<Event>, ip: string, j: nat, k: nat)
    requires j <= k < |events|
    ensures FitsWindow(l, events, ip, j, k) <==> Left(l, events, ip, j, k, events[k].at) >= 1.0
  {
    hide Grants;
  }

  lemma GrantedIffLeft(l: Limits, events: seq<Event>, k: nat)
    requires l.rate >= 0.0 && Ordered(events) && k < |events| && events[k].Request?
    ensures GrantAt(l, events, k) <==>
      forall j :: 0 <= j <= k && IsRequest(events[j], events[k].ip) ==>
        Left(l, events, events[k].ip, j, k, events[k].at) >= 1.0
  {
    var ip, at := events[k].ip, events[k].at;
    LeftAtOnce(l, events, ip, k);
    if l.burst < 1 {
      assert !GrantAt(l, events, k);
      assert IsRequest(events[k], ip) && Left(l, events, ip, k, k, at) < 1.0;
    } else {
      LevelsAreLeast(l, events, ip, k, at);
      LevelAfter(l, events, ip, k, at);
      hide *;
      assert IsRequest(events[k], ip) by { RequestIsOfItsClient(events[k]); }
      LeastIsEnoughIff(l, events, ip, k, at);
    }
  }

  lemma RequestIsOfItsClient(e: Event)
    requires e.Request?
    ensures IsRequest(e, e.ip)
  {
  }

  lemma LeastIsEnoughIff(l: Limits, events: seq<Event>, ip: string, k: nat, at: real)
    requires k < |events| && LevelIsLeast(l, events, ip, k, at) && l.burst >= 1
    requires IsRequest(events[k], ip) && Left(l, events, ip, k, k, at) == l.burst as real
    ensures LevelOf(l, BucketOf(After(l, map[], events[..k], false), ip), at) >= 1.0 <==>
      forall j :: 0 <= j <= k && IsRequest(events[j], ip) ==> Left(l, events, ip, j, k, at) >= 1.0
  {
    hide LevelOf, After, Left;
  }

  // These are the decisions of the limiter.
  lemma DecisionIsGrant(l: Limits, events: seq<Event>, k: nat)
    requires k < |events|
    ensures Decisions(l, map[], events[..k + 1], false)
         == Decisions(l, map[], events[..k], false) + if events[k].Request? then [GrantAt(l, events, k)] else []
  {
    assert events[..k + 1] == events[..k] + [events[k]];
    DecisionsConcat(l, map[], events[..k], [events[k]], false);
    assert [events[k]][1..] == [];
    hide After, AllowIn;
  }
}
