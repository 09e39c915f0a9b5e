// Replaying a range of a partition through filters (kafka/replay.go).
module Replay {
  import opened Events
  import opened Wrappers

  // A message as read: its position and time, its event (None when it does not decode), and the
  // resource id of the event's data ("" when that does not decode).
  datatype Msg = Msg(offset: int, time: int, event: Option<CloudEvent>, resourceId: string)

  // `sameResource` is strings.EqualFold: it ignores case.
  datatype Config = Config(
    endOffset: int, endTime: Option<int>, eventTypes: set<string>, resourceId: string,
    sameResource: (string, string) -> bool)

  // How reading ends when neither a bound nor the handler ends it: the context is done before a
  // read, or during one, or a read fails.
  datatype Ending = ContextDone | ContextDoneInRead | ReadFailed

  datatype Error = ContextError | ReadError | HandlerError(offset: int)

  datatype Stats = Stats(read: nat, delivered: nat, skipped: nat, lastOffset: int)

  // ---- What a replay should do ----------------------------------------------------------------

  predicate AtBound(cfg: Config, m: Msg) {
    (cfg.endOffset > 0 && m.offset >= cfg.endOffset) || (cfg.endTime.Some? && m.time > cfg.endTime.value)
  }

  predicate Passes(cfg: Config, m: Msg) {
    && m.event.Some?
    && (cfg.eventTypes == {} || m.event.value.typ in cfg.eventTypes)
    && (cfg.resourceId == "" || cfg.sameResource(m.resourceId, cfg.resourceId))
  }

  // The messages before the first one at or past a bound.
  function Window(cfg: Config, msgs: seq<Msg>): (w: seq<Msg>)
    ensures |w| <= |msgs| && w == msgs[..|w|]
    ensures forall m :: m in w ==> !AtBound(cfg, m)
    ensures |w| < |msgs| ==> AtBound(cfg, msgs[|w|])
  {
    if msgs == [] || AtBound(cfg, msgs[0]) then [] else [msgs[0]] + Window(cfg, msgs[1..])
  }

  function Selected(cfg: Config, msgs: seq<Msg>): seq<CloudEvent> {
    if msgs == [] then []
    else
      var last := msgs[|msgs| - 1];
      Selected(cfg, msgs[..|msgs| - 1]) + if Passes(cfg, last) then [last.event.value] else []
  }

  // The number of calls up to and including the first that fails, among the first n.
  function CallsMade(handlerOk: nat -> bool, n: nat): (calls: nat)
    ensures calls <= n
  {
    if n == 0 then 0
    else
      var before := CallsMade(handlerOk, n - 1);
      if before < n - 1 || (before > 0 && !handlerOk(before - 1)) then before else n
  }

  predicate Failed(handlerOk: nat -> bool, n: nat) {
    var calls := CallsMade(handlerOk, n);
    calls > 0 && !handlerOk(calls - 1)
  }

  lemma {:induction false} CallsMadeIsFirstFailure(handlerOk: nat -> bool, n: nat)
    ensures forall k :: 0 <= k < CallsMade(handlerOk, n) - 1 ==> handlerOk(k)
    ensures CallsMade(handlerOk, n) < n ==> Failed(handlerOk, n)
  {
    if n > 0 { CallsMadeIsFirstFailure(handlerOk, n - 1); }
  }

  // ---- The loop --------------------------------------------------------------------------------

  // The two bounds of the loop body.
  method Stops(cfg: Config, m: Msg) returns (stop: bool)
    ensures stop == AtBound(cfg, m)
    ensures stop == ((cfg.endOffset > 0 && m.offset >= cfg.endOffset)
      || (cfg.endTime.Some? && m.time > cfg.endTime.value))
  {
    if cfg.endOffset > 0 && m.offset >= cfg.endOffset { return true; }
    if cfg.endTime.Some? && m.time > cfg.endTime.value { return true; }
    return false;
  }

  // The filters of the loop body, one after the other.
  method Skips(cfg: Config, m: Msg) returns (skip: bool)
    ensures skip == !Passes(cfg, m) && (!skip ==> m.event.Some?)
  {
    if m.event.None? { return true; }
    if cfg.eventTypes != {} && m.event.value.typ !in cfg.eventTypes { return true; }
    if cfg.resourceId != "" {
      if !cfg.sameResource(m.resourceId, cfg.resourceId) { return true; }
    }
    return false;
  }

  // Of the first n messages, none at a bound, those that pass were handed on.
  ghost predicate HandedFrom(cfg: Config, msgs: seq<Msg>, n: nat, handed: seq<CloudEvent>, at: seq<nat>) {
    && n <= |msgs| && |at| == |handed|
    && (forall k :: 0 <= k < |at| ==> at[k] < n && msgs[at[k]].event == Some(handed[k]))
    && (forall k, l :: 0 <= k < l < |at| ==> at[k] < at[l])
    && (forall i :: 0 <= i < n ==> !AtBound(cfg, msgs[i]) && (i in at <==> Passes(cfg, msgs[i])))
  }

  lemma OneMoreRead(cfg: Config, msgs: seq<Msg>, n: nat, handed: seq<CloudEvent>, at: seq<nat>)
    requires HandedFrom(cfg, msgs, n, handed, at) && n < |msgs| && !AtBound(cfg, msgs[n])
    ensures if Passes(cfg, msgs[n]) then HandedFrom(cfg, msgs, n + 1, handed + [msgs[n].event.value], at + [n])
            else HandedFrom(cfg, msgs, n + 1, handed, at)
  {
    hide AtBound;
    assert n !in at;
  }

  // What was handed on, spelled out for the messages read: those, and perhaps one at a bound.
  lemma HandedSpelledOut(cfg: Config, msgs: seq<Msg>, n: nat, read: nat, handed: seq<CloudEvent>, at: seq<nat>)
    requires HandedFrom(cfg, msgs, n, handed, at)
    requires read == n || (read == n + 1 <= |msgs| && AtBound(cfg, msgs[n]))
    ensures |at| == |handed| && forall k :: 0 <= k < |at| ==> at[k] < read && msgs[at[k]].event == Some(handed[k])
    ensures forall k, l :: 0 <= k < l < |at| ==> at[k] < at[l]
    ensures forall i :: 0 <= i < read ==> (i in at <==>
      && msgs[i].event.Some?
      && (cfg.eventTypes == {} || msgs[i].event.value.typ in cfg.eventTypes)
      && (cfg.resourceId == "" || cfg.sameResource(msgs[i].resourceId, cfg.resourceId))
      && !(cfg.endOffset > 0 && msgs[i].offset >= cfg.endOffset)
      && !(cfg.endTime.Some? && msgs[i].time > cfg.endTime.value))
    ensures forall i :: 0 <= i < n ==>
      && !(cfg.endOffset > 0 && msgs[i].offset >= cfg.endOffset)
      && !(cfg.endTime.Some? && msgs[i].time > cfg.endTime.value)
  {
    assert read == n + 1 ==> n !in at;
  }

  lemma NoneRead(cfg: Config, msgs: seq<Msg>)
    ensures HandedFrom(cfg, msgs, 0, [], [])
  {
  }

  lemma InWindow(cfg: Config, msgs: seq<Msg>, i: nat)
    requires i <= |Window(cfg, msgs)| && i < |msgs|
    ensures var w := Window(cfg, msgs);
      if AtBound(cfg, msgs[i]) then i == |w| else i < |w| && w[i] == msgs[i]
  {
    var w := Window(cfg, msgs);
    assert i < |w| ==> w[i] in w && w[i] == msgs[i];
    hide Window;
  }

  lemma OneMoreCall(handlerOk: nat -> bool, n: nat)
    requires CallsMade(handlerOk, n) == n && !Failed(handlerOk, n)
    ensures CallsMade(handlerOk, n + 1) == n + 1 && (Failed(handlerOk, n + 1) <==> !handlerOk(n))
  {
  }

  // The loop. Of the n messages read before a bound, those that pass are handed on, up to the
  // handler's first error.
  method ReadMessages(cfg: Config, msgs: seq<Msg>, ending: Ending, handlerOk: nat -> bool)
    returns (stats: Stats, error: Option<Error>, handed: seq<CloudEvent>, ghost at: seq<nat>, ghost n: nat)
    ensures HandedFrom(cfg, msgs, n, handed, at) && n <= |msgs| && |at| == |handed|
    ensures stats.read <= |msgs| && (stats.read > 0 ==> stats.lastOffset == msgs[stats.read - 1].offset)
    ensures forall k :: 0 <= k < |at| - 1 ==> handlerOk(k)
    ensures stats.read == 0 ==> stats.lastOffset == 0
    ensures if handed != [] && !handlerOk(|handed| - 1) then
        && stats.read == n > 0 && at[|at| - 1] == n - 1 && error == Some(HandlerError(msgs[n - 1].offset))
        && stats.delivered == |handed| - 1 && stats.skipped == n - |handed|
      else if n < |msgs| then
        && stats.read == n + 1 && AtBound(cfg, msgs[n]) && error == None
        && stats.delivered == |handed| && stats.skipped == n - |handed|
      else
        && stats.read == n && stats.delivered == |handed| && stats.skipped == n - |handed|
        && error == (match ending
          case ContextDone => Some(ContextError) case ContextDoneInRead => None case ReadFailed => Some(ReadError))
  {
    hide *;
    n := 0;
    NoneRead(cfg, msgs);
    stats, error, handed, at := Stats(0, 0, 0, 0), None, [], [];
    var i := 0;
    while i < |msgs|
      invariant 0 <= i <= |msgs| && n == i && error.None?
      invariant stats.read == i && stats.delivered == |handed| && stats.read == stats.delivered + stats.skipped
      invariant stats.lastOffset == if i > 0 then msgs[i - 1].offset else 0
      invariant HandedFrom(cfg, msgs, i, handed, at) && |at| == |handed|
      invariant forall k :: 0 <= k < |at| ==> handlerOk(k)
    {
      var m := msgs[i];
      stats := stats.(read := stats.read + 1, lastOffset := m.offset);
      var bound := Stops(cfg, m);
      if bound {
        return;
      }
      OneMoreRead(cfg, msgs, i, handed, at);
      i, n := i + 1, n + 1;
      var skip := Skips(cfg, m);
      if skip {
        stats := stats.(skipped := stats.skipped + 1);
        continue;
      }
      handed, at := handed + [m.event.value], at + [i - 1];
      if !handlerOk(|handed| - 1) {
        error := Some(HandlerError(m.offset));
        return;
      }
      stats := stats.(delivered := stats.delivered + 1);
    }
    match ending {
      case ContextDone => error := Some(ContextError);
      case ContextDoneInRead => error := None;
      case ReadFailed => error := Some(ReadError);
    }
  }

  method Replay(cfg: Config, msgs: seq<Msg>, ending: Ending, handlerOk: nat -> bool)
    returns (stats: Stats, error: Option<Error>, handed: seq<CloudEvent>, ghost at: seq<nat>)
    // `at` says where the handed events were: of the messages read, those that decode and pass both
    // filters, but for one at or past a bound, which is the last one read.
    ensures stats.read <= |msgs| && |at| == |handed| && forall k :: 0 <= k < |at| ==> at[k] < stats.read
    ensures forall k :: 0 <= k < |at| ==> msgs[at[k]].event == Some(handed[k])
    ensures forall k, l :: 0 <= k < l < |at| ==> at[k] < at[l]
    ensures forall i :: 0 <= i < stats.read ==> (i in at <==>
      && msgs[i].event.Some?
      && (cfg.eventTypes == {} || msgs[i].event.value.typ in cfg.eventTypes)
      && (cfg.resourceId == "" || cfg.sameResource(msgs[i].resourceId, cfg.resourceId))
      && !(cfg.endOffset > 0 && msgs[i].offset >= cfg.endOffset)
      && !(cfg.endTime.Some? && msgs[i].time > cfg.endTime.value))
    ensures forall i :: 0 <= i < stats.read - 1 ==>
      && !(cfg.endOffset > 0 && msgs[i].offset >= cfg.endOffset)
      && !(cfg.endTime.Some? && msgs[i].time > cfg.endTime.value)
    // The handler's first error ends the replay, with the offset of that message.
    ensures forall k :: 0 <= k < |at| - 1 ==> handlerOk(k)
    ensures |at| > 0 && !handlerOk(|at| - 1) ==>
      at[|at| - 1] == stats.read - 1 && error == Some(HandlerError(msgs[stats.read - 1].offset))
    ensures stats.read == 0 ==> stats.lastOffset == 0
    ensures stats.delivered == |at| - if |at| > 0 && !handlerOk(|at| - 1) then 1 else 0
    // Without one, a bound ends it, or reading does.
    ensures !(|at| > 0 && !handlerOk(|at| - 1)) ==>
      if stats.read > 0
         && ((cfg.endOffset > 0 && msgs[stats.read - 1].offset >= cfg.endOffset)
             || (cfg.endTime.Some? && msgs[stats.read - 1].time > cfg.endTime.value))
      then error == None && stats.skipped == stats.read - 1 - |at|
      else stats.read == |msgs| && stats.skipped == stats.read - |at| && error == (match ending
        case ContextDone => Some(ContextError) case ContextDoneInRead => None case ReadFailed => Some(ReadError))
    // The handler gets, in order, the selected events before the bound, up to its first error.
    ensures var selected := Selected(cfg, Window(cfg, msgs));
      && handed == selected[..CallsMade(handlerOk, |selected|)]
    ensures var n := |Selected(cfg, Window(cfg, msgs))|;
      && stats.delivered == CallsMade(handlerOk, n) - (if Failed(handlerOk, n) then 1 else 0)
      && (error.Some? && error.value.HandlerError? <==> Failed(handlerOk, n))
    // Every message read is delivered or skipped, but for the one that ended the replay.
    ensures stats.read == stats.delivered + stats.skipped
      + if (error.Some? && error.value.HandlerError?) || (error.None? && |Window(cfg, msgs)| < |msgs|) then 1 else 0
    ensures stats.read <= |msgs| && (stats.read > 0 ==> stats.lastOffset == msgs[stats.read - 1].offset)
    ensures !Failed(handlerOk, |Selected(cfg, Window(cfg, msgs))|) ==>
      if |Window(cfg, msgs)| < |msgs| then stats.read == |Window(cfg, msgs)| + 1 && error.None?
      else stats.read == |msgs| && error == (match ending
        case ContextDone => Some(ContextError) case ContextDoneInRead => None case ReadFailed => Some(ReadError))
  {
    ghost var n;
    stats, error, handed, at, n := ReadMessages(cfg, msgs, ending, handlerOk);
    HandedSpelledOut(cfg, msgs, n, stats.read, handed, at);
    HandedIsSelected(cfg, msgs, n, handed, at, handlerOk);
    assert n < stats.read ==> AtBound(cfg, msgs[n]);
    hide HandedFrom, Passes, Selected, CallsMade, Failed, Window;
  }

  // Where reading ended, what was handed on is the selection so far, and all of it when reading
  // ended for another reason than the handler.
  lemma HandedIsSelected(
      cfg: Config, msgs: seq<Msg>, n: nat, handed: seq<CloudEvent>, at: seq<nat>, handlerOk: nat -> bool)
    requires HandedFrom(cfg, msgs, n, handed, at) && forall k :: 0 <= k < |handed| - 1 ==> handlerOk(k)
    requires (handed != [] && !handlerOk(|handed| - 1)) || n == |msgs| || AtBound(cfg, msgs[n])
    ensures var w := Window(cfg, msgs);
      var total := |Selected(cfg, w)|;
      && n <= |w| && handed == Selected(cfg, w)[..CallsMade(handlerOk, total)]
      && CallsMade(handlerOk, total) == |handed|
      && (Failed(handlerOk, total) <==> handed != [] && !handlerOk(|handed| - 1))
      && (!Failed(handlerOk, total) ==> n == |w|)
  {
    var w := Window(cfg, msgs);
    SelectedSoFar(cfg, msgs, n, handed, at);
    SelectedExtends(cfg, w, n);
    hide HandedFrom, AtBound, Passes, Window, Selected, CallsMade, Failed;
    if handed != [] && !handlerOk(|handed| - 1) {
      ErrorCutsOff(handed, Selected(cfg, w), handlerOk);
    } else {
      AllSucceeded(handlerOk, |handed|);
      if n < |msgs| { InWindow(cfg, msgs, n); }
      assert n == |w| && w[..n] == w;
    }
  }

  lemma ErrorCutsOff(handed: seq<CloudEvent>, selected: seq<CloudEvent>, handlerOk: nat -> bool)
    requires handed <= selected && handed != [] && !handlerOk(|handed| - 1)
    requires forall k :: 0 <= k < |handed| - 1 ==> handlerOk(k)
    ensures CallsMade(handlerOk, |selected|) == |handed| && Failed(handlerOk, |selected|)
    ensures handed == selected[..|handed|]
  {
    AllSucceeded(handlerOk, |handed| - 1);
    OneMoreCall(handlerOk, |handed| - 1);
    FailureIsFinal(handlerOk, |handed|, |selected|);
  }

  lemma {:induction false} AllSucceeded(handlerOk: nat -> bool, n: nat)
    requires forall k :: 0 <= k < n ==> handlerOk(k)
    ensures CallsMade(handlerOk, n) == n && !Failed(handlerOk, n)
  {
    if n > 0 { AllSucceeded(handlerOk, n - 1); }
  }

  lemma SelectedSoFar(cfg: Config, msgs: seq<Msg>, n: nat, handed: seq<CloudEvent>, at: seq<nat>)
    requires HandedFrom(cfg, msgs, n, handed, at)
    ensures n <= |Window(cfg, msgs)| && handed == Selected(cfg, Window(cfg, msgs)[..n])
  {
    var w := Window(cfg, msgs);
    assert |w| < |msgs| ==> AtBound(cfg, msgs[|w|]);
    assert n <= |w|;
    assert w[..n] == msgs[..n];
    hide Window, AtBound;
    HandedIsFilter(cfg, msgs, n, handed, at);
  }

  lemma {:induction false} HandedIsFilter(cfg: Config, msgs: seq<Msg>, n: nat, handed: seq<CloudEvent>, at: seq<nat>)
    requires HandedFrom(cfg, msgs, n, handed, at)
    ensures handed == Selected(cfg, msgs[..n])
    decreases n
  {
    hide AtBound, Passes;
    if n == 0 {
      assert at == [] && handed == [];
    } else {
      assert msgs[..n][..n - 1] == msgs[..n - 1];
      var last := |at| - 1;
      if Passes(cfg, msgs[n - 1]) {
        var k :| 0 <= k < |at| && at[k] == n - 1;
        assert k == last;
        assert handed == handed[..last] + [handed[last]];
        assert HandedFrom(cfg, msgs, n - 1, handed[..last], at[..last]);
        HandedIsFilter(cfg, msgs, n - 1, handed[..last], at[..last]);
      } else {
        assert forall k :: 0 <= k < |at| ==> at[k] in at;
        HandedIsFilter(cfg, msgs, n - 1, handed, at);
      }
    }
  }

  // Later messages only add to the selection.
  lemma {:induction false} SelectedExtends(cfg: Config, msgs: seq<Msg>, i: nat)
    requires i <= |msgs|
    ensures Selected(cfg, msgs[..i]) <= Selected(cfg, msgs)
    decreases |msgs| - i
  {
    if i == |msgs| {
      assert msgs[..i] == msgs;
    } else {
      SelectedExtends(cfg, msgs, i + 1);
      assert msgs[..i + 1][..i] == msgs[..i];
    }
  }

  lemma {:induction false} FailureIsFinal(handlerOk: nat -> bool, k: nat, n: nat)
    requires 0 < k <= n && CallsMade(handlerOk, k) == k && !handlerOk(k - 1)
    ensures CallsMade(handlerOk, n) == k && Failed(handlerOk, n)
    decreases n
  {
    if k < n { FailureIsFinal(handlerOk, k, n - 1); }
  }

  // ---- What is selected ------------------------------------------------------------------------------

  // Selected keeps exactly the passing messages, in order: message i is there after the passing
  // ones before it.
  lemma {:induction false} SelectedIsFilter(cfg: Config, msgs: seq<Msg>, i: nat)
    requires i < |msgs|
    ensures var before := |Selected(cfg, msgs[..i])|;
      if Passes(cfg, msgs[i]) then
        before < |Selected(cfg, msgs)| && Selected(cfg, msgs)[before] == msgs[i].event.value
        && |Selected(cfg, msgs[..i + 1])| == before + 1
      else Selected(cfg, msgs[..i + 1]) == Selected(cfg, msgs[..i])
  {
    assert msgs[..i + 1][..i] == msgs[..i];
    SelectedExtends(cfg, msgs, i + 1);
  }
}
