/**
  What the Dream Sequence and Single Image branches promise, stated on
  measures of the event log (calls made, sleep units, warnings, outcomes)
  against reference definitions of where each scene's retry loop stops and
  where the first escaping exception ends the run.
 */
module DreamProperties {
  import opened Wrappers
  import opened ImageApi
  import opened App
  import Scenes

  // ---------------------------------------------------------------------------
  // Measures of an event log
  // ---------------------------------------------------------------------------

  /** The calls of `call_banana_api` made for scene `idx`, in order. */
  function RequestsFor(events: seq<Event>, idx: nat): seq<Event>
  {
    if events == [] then []
    else (if events[0].Request? && events[0].scene == idx then [events[0]] else []) + RequestsFor(events[1..], idx)
  }

  /** Every call of `call_banana_api`, in order. */
  function Requests(events: seq<Event>): seq<Event>
  {
    if events == [] then []
    else (if events[0].Request? then [events[0]] else []) + Requests(events[1..])
  }

  /** The total time slept, in seconds. */
  function SleepUnits(events: seq<Event>): nat
  {
    if events == [] then 0
    else (if events[0].Sleep? then events[0].units else 0) + SleepUnits(events[1..])
  }

  /** The number of retry warnings. */
  function WarningCount(events: seq<Event>): nat
  {
    if events == [] then 0
    else (if events[0].Warning? then 1 else 0) + WarningCount(events[1..])
  }

  /** The final word on each scene: its image or its error. */
  function Outcomes(events: seq<Event>): seq<Event>
  {
    if events == [] then []
    else (if events[0].Image? || events[0].Error? then [events[0]] else []) + Outcomes(events[1..])
  }

  lemma {:induction false} RequestsForAppend(a: seq<Event>, b: seq<Event>, idx: nat)
    ensures RequestsFor(a + b, idx) == RequestsFor(a, idx) + RequestsFor(b, idx)
  {
    if a != [] {
      var head := if a[0].Request? && a[0].scene == idx then [a[0]] else [];
      assert (a + b)[1..] == a[1..] + b;
      assert RequestsFor(a + b, idx) == head + RequestsFor(a[1..] + b, idx);
      RequestsForAppend(a[1..], b, idx);
      AppendAssociative(head, RequestsFor(a[1..], idx), RequestsFor(b, idx));
    } else {
      assert a + b == b;
    }
  }

  lemma {:induction false} RequestsAppend(a: seq<Event>, b: seq<Event>)
    ensures Requests(a + b) == Requests(a) + Requests(b)
  {
    if a != [] {
      var head := if a[0].Request? then [a[0]] else [];
      assert (a + b)[1..] == a[1..] + b;
      assert Requests(a + b) == head + Requests(a[1..] + b);
      RequestsAppend(a[1..], b);
      AppendAssociative(head, Requests(a[1..]), Requests(b));
    } else {
      assert a + b == b;
    }
  }

  lemma {:induction false} SleepUnitsAppend(a: seq<Event>, b: seq<Event>)
    ensures SleepUnits(a + b) == SleepUnits(a) + SleepUnits(b)
  {
    if a != [] {
      assert (a + b)[1..] == a[1..] + b;
      SleepUnitsAppend(a[1..], b);
    } else {
      assert a + b == b;
    }
  }

  lemma {:induction false} WarningCountAppend(a: seq<Event>, b: seq<Event>)
    ensures WarningCount(a + b) == WarningCount(a) + WarningCount(b)
  {
    if a != [] {
      assert (a + b)[1..] == a[1..] + b;
      WarningCountAppend(a[1..], b);
    } else {
      assert a + b == b;
    }
  }

  lemma {:induction false} OutcomesAppend(a: seq<Event>, b: seq<Event>)
    ensures Outcomes(a + b) == Outcomes(a) + Outcomes(b)
  {
    if a != [] {
      var head := if a[0].Image? || a[0].Error? then [a[0]] else [];
      assert (a + b)[1..] == a[1..] + b;
      assert Outcomes(a + b) == head + Outcomes(a[1..] + b);
      OutcomesAppend(a[1..], b);
      AppendAssociative(head, Outcomes(a[1..]), Outcomes(b));
    } else {
      assert a + b == b;
    }
  }

  // ---------------------------------------------------------------------------
  // One scene
  // ---------------------------------------------------------------------------

  /** The attempt at which scene `idx`'s loop stops: the first from `from` on that does not fail, or the last. */
  function StopAttempt(idx: nat, from: nat, oracle: Oracle, decode: Decoder): nat
    requires from < 3
    decreases 3 - from
  {
    if from == 2 || !ClassifyAttempt(oracle(idx, from), decode).Failed? then from
    else StopAttempt(idx, from + 1, oracle, decode)
  }

  lemma {:induction false} StopAttemptIsFirstNonFailure(idx: nat, from: nat, oracle: Oracle, decode: Decoder)
    requires from < 3
    ensures from <= StopAttempt(idx, from, oracle, decode) <= 2
    ensures forall t :: from <= t < StopAttempt(idx, from, oracle, decode) ==> ClassifyAttempt(oracle(idx, t), decode).Failed?
    ensures StopAttempt(idx, from, oracle, decode) < 2 ==> !ClassifyAttempt(oracle(idx, StopAttempt(idx, from, oracle, decode)), decode).Failed?
    decreases 3 - from
  {
    if from < 2 && ClassifyAttempt(oracle(idx, from), decode).Failed? {
      StopAttemptIsFirstNonFailure(idx, from + 1, oracle, decode);
    }
  }

  /** The event that settles a scene whose loop stopped on attempt outcome `a`. */
  function Settle(a: Attempt, idx: nat, col: nat): Event
  {
    match a
    case Shown(bytes) => Image(Column(col), bytes, DreamScene(idx))
    case Failed(failure) => Error(Column(col), FinalText(failure))
    case Escaped(message) => Error(Main, AbortText(message))
  }

  /** The measures of a log that starts with `e`. */
  lemma ConsMeasures(e: Event, rest: seq<Event>, other: nat)
    ensures Requests([e] + rest) == (if e.Request? then [e] else []) + Requests(rest)
    ensures RequestsFor([e] + rest, other) == (if e.Request? && e.scene == other then [e] else []) + RequestsFor(rest, other)
    ensures SleepUnits([e] + rest) == (if e.Sleep? then e.units else 0) + SleepUnits(rest)
    ensures WarningCount([e] + rest) == (if e.Warning? then 1 else 0) + WarningCount(rest)
    ensures Outcomes([e] + rest) == (if e.Image? || e.Error? then [e] else []) + Outcomes(rest)
  {
    assert ([e] + rest)[1..] == rest;
  }

  /** A retry: the call, its warning and the two-second sleep. */
  lemma RetryMeasures(request: Event, warning: Event, other: nat)
    requires request.Request? && warning.Warning?
    ensures var events := [request, warning, Sleep(2)];
      && Requests(events) == [request]
      && RequestsFor(events, other) == (if request.scene == other then [request] else [])
      && SleepUnits(events) == 2 && WarningCount(events) == 1 && Outcomes(events) == []
  {
    ConsMeasures(Sleep(2), [], other);
    assert [Sleep(2)] + [] == [Sleep(2)];
    ConsMeasures(warning, [Sleep(2)], other);
    assert [warning] + [Sleep(2)] == [warning, Sleep(2)];
    ConsMeasures(request, [warning, Sleep(2)], other);
    assert [request] + [warning, Sleep(2)] == [request, warning, Sleep(2)];
  }

  /** The last attempt: the call and the outcome it settles on. */
  lemma LastMeasures(request: Event, outcome: Event, other: nat)
    requires request.Request? && (outcome.Image? || outcome.Error?)
    ensures var events := [request, outcome];
      && Requests(events) == [request]
      && RequestsFor(events, other) == (if request.scene == other then [request] else [])
      && SleepUnits(events) == 0 && WarningCount(events) == 0 && Outcomes(events) == [outcome]
  {
    ConsMeasures(outcome, [], other);
    assert [outcome] + [] == [outcome];
    ConsMeasures(request, [outcome], other);
    assert [request] + [outcome] == [request, outcome];
  }

  /** `calls` are the calls of attempts `from` .. `stop` of scene `idx` with prompt `scene`. */
  predicate AttemptCalls(calls: seq<Event>, idx: nat, from: nat, stop: nat, scene: string)
  {
    && |calls| + from == stop + 1
    && forall i :: 0 <= i < |calls| ==> calls[i] == Request(idx, from + i, scene)
  }

  /** The calls of attempts `from` .. `stop` of scene `idx` with prompt `scene`, in order. */
  function CallsOf(idx: nat, from: nat, stop: nat, scene: string): seq<Event>
    decreases stop + 1 - from
  {
    if from <= stop then [Request(idx, from, scene)] + CallsOf(idx, from + 1, stop, scene) else []
  }

  /** `CallsOf` lists exactly the attempts `from` .. `stop`, one call each. */
  lemma {:induction false} CallsOfIndex(idx: nat, from: nat, stop: nat, scene: string)
    requires from <= stop + 1
    ensures AttemptCalls(CallsOf(idx, from, stop, scene), idx, from, stop, scene)
    decreases stop + 1 - from
  {
    if from <= stop {
      CallsOfIndex(idx, from + 1, stop, scene);
      var head := Request(idx, from, scene);
      var tail := CallsOf(idx, from + 1, stop, scene);
      assert CallsOf(idx, from, stop, scene) == [head] + tail;
      forall i | 0 < i <= |tail|
        ensures ([head] + tail)[i] == Request(idx, from + i, scene)
      {
        ConsIndex(head, tail, i);
      }
    }
  }

  /** The calls made by attempts `from` on of scene `idx` are those of attempts `from` .. stop. */
  lemma {:induction false} AttemptsCallList(scene: string, idx: nat, col: nat, from: nat, oracle: Oracle, decode: Decoder)
    requires from < 3
    ensures Requests(AttemptsFrom(scene, idx, col, from, oracle, decode).events)
      == CallsOf(idx, from, StopAttempt(idx, from, oracle, decode), scene)
    decreases 3 - from
  {
    var request := Request(idx, from, scene);
    var outcome := ClassifyAttempt(oracle(idx, from), decode);
    var events := AttemptsFrom(scene, idx, col, from, oracle, decode).events;
    var stop := StopAttempt(idx, from, oracle, decode);
    if from < 2 && outcome.Failed? {
      var rest := AttemptsFrom(scene, idx, col, from + 1, oracle, decode).events;
      var head := [request, Warning(Column(col), WarningText(outcome.failure, from)), Sleep(2)];
      assert events == head + rest;
      AttemptsCallList(scene, idx, col, from + 1, oracle, decode);
      RetryMeasures(request, head[1], idx);
      RequestsAppend(head, rest);
      assert CallsOf(idx, from, stop, scene) == [request] + CallsOf(idx, from + 1, stop, scene);
    } else {
      LastMeasures(request, events[1], idx);
      assert CallsOf(idx, from + 1, stop, scene) == [];
    }
  }

  /** Attempts `from` .. `stop` are made for scene `idx`, in order and each with the scene's own prompt. */
  lemma AttemptsRequests(scene: string, idx: nat, col: nat, from: nat, oracle: Oracle, decode: Decoder)
    requires from < 3
    ensures AttemptCalls(Requests(AttemptsFrom(scene, idx, col, from, oracle, decode).events), idx, from, StopAttempt(idx, from, oracle, decode), scene)
  {
    StopAttemptIsFirstNonFailure(idx, from, oracle, decode);
    AttemptsCallList(scene, idx, col, from, oracle, decode);
    CallsOfIndex(idx, from, StopAttempt(idx, from, oracle, decode), scene);
  }

  /** Scene `idx`'s attempts make no call for any other scene. */
  lemma {:induction false} AttemptsOwnScene(scene: string, idx: nat, col: nat, from: nat, oracle: Oracle, decode: Decoder, other: nat)
    requires from < 3
    ensures var events := AttemptsFrom(scene, idx, col, from, oracle, decode).events;
      RequestsFor(events, other) == (if other == idx then Requests(events) else [])
    decreases 3 - from
  {
    var request := Request(idx, from, scene);
    var outcome := ClassifyAttempt(oracle(idx, from), decode);
    var events := AttemptsFrom(scene, idx, col, from, oracle, decode).events;
    if from < 2 && outcome.Failed? {
      var rest := AttemptsFrom(scene, idx, col, from + 1, oracle, decode).events;
      var head := [request, Warning(Column(col), WarningText(outcome.failure, from)), Sleep(2)];
      assert events == head + rest;
      AttemptsOwnScene(scene, idx, col, from + 1, oracle, decode, other);
      RetryMeasures(request, head[1], other);
      RequestsAppend(head, rest);
      RequestsForAppend(head, rest, other);
    } else {
      LastMeasures(request, events[1], other);
    }
  }

  /** Every attempt before the stopping one leaves one warning and two seconds of sleep. */
  lemma {:induction false} AttemptsTiming(scene: string, idx: nat, col: nat, from: nat, oracle: Oracle, decode: Decoder)
    requires from < 3
    ensures var run := AttemptsFrom(scene, idx, col, from, oracle, decode);
      && SleepUnits(run.events) == 2 * (StopAttempt(idx, from, oracle, decode) - from)
      && WarningCount(run.events) == StopAttempt(idx, from, oracle, decode) - from
    decreases 3 - from
  {
    var request := Request(idx, from, scene);
    var outcome := ClassifyAttempt(oracle(idx, from), decode);
    if from < 2 && outcome.Failed? {
      var rest := AttemptsFrom(scene, idx, col, from + 1, oracle, decode);
      var head := [request, Warning(Column(col), WarningText(outcome.failure, from)), Sleep(2)];
      AttemptsTiming(scene, idx, col, from + 1, oracle, decode);
      RetryMeasures(request, head[1], idx);
      SleepUnitsAppend(head, rest.events);
      WarningCountAppend(head, rest.events);
      StopAttemptIsFirstNonFailure(idx, from + 1, oracle, decode);
    } else {
      LastMeasures(request, AttemptsFrom(scene, idx, col, from, oracle, decode).events[1], idx);
    }
  }

  /**
    The loop ends with exactly one outcome, the one its stopping attempt
    decides, as its last event; it leaves the scene loop exactly when that
    attempt raised.
   */
  lemma {:induction false} AttemptsOutcome(scene: string, idx: nat, col: nat, from: nat, oracle: Oracle, decode: Decoder)
    requires from < 3
    ensures var run := AttemptsFrom(scene, idx, col, from, oracle, decode);
      var settled := Settle(ClassifyAttempt(oracle(idx, StopAttempt(idx, from, oracle, decode)), decode), idx, col);
      && Outcomes(run.events) == [settled]
      && run.events[|run.events| - 1] == settled
      && (run.aborted <==> ClassifyAttempt(oracle(idx, StopAttempt(idx, from, oracle, decode)), decode).Escaped?)
    decreases 3 - from
  {
    var request := Request(idx, from, scene);
    var outcome := ClassifyAttempt(oracle(idx, from), decode);
    if from < 2 && outcome.Failed? {
      var rest := AttemptsFrom(scene, idx, col, from + 1, oracle, decode);
      var head := [request, Warning(Column(col), WarningText(outcome.failure, from)), Sleep(2)];
      AttemptsOutcome(scene, idx, col, from + 1, oracle, decode);
      RetryMeasures(request, head[1], idx);
      OutcomesAppend(head, rest.events);
    } else {
      LastMeasures(request, AttemptsFrom(scene, idx, col, from, oracle, decode).events[1], idx);
    }
  }

  /**
    Scene `k + 1` waits two seconds before its first call unless it is the
    first scene, and two more after each failed attempt but the last.
   */
  lemma SceneSleep(scenes: seq<string>, k: nat, oracle: Oracle, decode: Decoder)
    requires k < |scenes|
    ensures var events := SceneBlock(scenes, k, oracle, decode).events;
      if k > 0 then |events| >= 2 && events[0] == Sleep(2) && events[1] == Request(k + 1, 0, scenes[k])
      else |events| >= 1 && events[0] == Request(k + 1, 0, scenes[k])
    ensures SleepUnits(SceneBlock(scenes, k, oracle, decode).events)
      == (if k > 0 then 2 else 0) + 2 * StopAttempt(k + 1, 0, oracle, decode)
    ensures WarningCount(SceneBlock(scenes, k, oracle, decode).events) == StopAttempt(k + 1, 0, oracle, decode)
  {
    var run := AttemptsFrom(scenes[k], k + 1, ColumnOf(k + 1, |scenes|), 0, oracle, decode);
    var pause: seq<Event> := if k > 0 then [Sleep(2)] else [];
    AttemptsTiming(scenes[k], k + 1, ColumnOf(k + 1, |scenes|), 0, oracle, decode);
    SleepUnitsAppend(pause, run.events);
    WarningCountAppend(pause, run.events);
    if k > 0 {
      assert pause[1..] == [];
    }
  }

  // ---------------------------------------------------------------------------
  // The whole run
  // ---------------------------------------------------------------------------

  /** Whether scene `k + 1`'s loop is left by an exception. */
  predicate Aborts(scenes: seq<string>, k: nat, oracle: Oracle, decode: Decoder)
    requires k < |scenes|
  {
    ClassifyAttempt(oracle(k + 1, StopAttempt(k + 1, 0, oracle, decode)), decode).Escaped?
  }

  /** The position of the first scene from `k` on whose loop an exception leaves, or `|scenes|`. */
  function FirstAbort(scenes: seq<string>, k: nat, oracle: Oracle, decode: Decoder): nat
    decreases |scenes| - k
  {
    if k >= |scenes| then |scenes|
    else if Aborts(scenes, k, oracle, decode) then k
    else FirstAbort(scenes, k + 1, oracle, decode)
  }

  lemma {:induction false} FirstAbortIsFirst(scenes: seq<string>, k: nat, oracle: Oracle, decode: Decoder)
    requires k <= |scenes|
    ensures k <= FirstAbort(scenes, k, oracle, decode) <= |scenes|
    ensures forall j :: k <= j < FirstAbort(scenes, k, oracle, decode) ==> !Aborts(scenes, j, oracle, decode)
    ensures FirstAbort(scenes, k, oracle, decode) < |scenes| ==> Aborts(scenes, FirstAbort(scenes, k, oracle, decode), oracle, decode)
    decreases |scenes| - k
  {
    if k < |scenes| && !Aborts(scenes, k, oracle, decode) {
      FirstAbortIsFirst(scenes, k + 1, oracle, decode);
    }
  }

  /** How many scenes from `k` on are processed: up to and including the first that aborts. */
  function Processed(scenes: seq<string>, k: nat, oracle: Oracle, decode: Decoder): nat
  {
    Min(FirstAbort(scenes, k, oracle, decode) + 1, |scenes|)
  }

  /** The outcome of scene `k + 1`: the one its stopping attempt decides, in its own column. */
  function SceneOutcome(scenes: seq<string>, k: nat, oracle: Oracle, decode: Decoder): Event
    requires k < |scenes|
  {
    Settle(ClassifyAttempt(oracle(k + 1, StopAttempt(k + 1, 0, oracle, decode)), decode), k + 1, ColumnOf(k + 1, |scenes|))
  }

  /** Scene `k + 1`'s block settles on its outcome, last, and is aborted exactly when the scene aborts. */
  lemma BlockOutcome(scenes: seq<string>, k: nat, oracle: Oracle, decode: Decoder)
    requires k < |scenes|
    ensures var block := SceneBlock(scenes, k, oracle, decode);
      && block.aborted == Aborts(scenes, k, oracle, decode)
      && Outcomes(block.events) == [SceneOutcome(scenes, k, oracle, decode)]
      && block.events[|block.events| - 1] == SceneOutcome(scenes, k, oracle, decode)
  {
    var run := AttemptsFrom(scenes[k], k + 1, ColumnOf(k + 1, |scenes|), 0, oracle, decode);
    var pause: seq<Event> := if k > 0 then [Sleep(2)] else [];
    AttemptsOutcome(scenes[k], k + 1, ColumnOf(k + 1, |scenes|), 0, oracle, decode);
    OutcomesAppend(pause, run.events);
    if k > 0 {
      assert pause[1..] == [];
    }
  }

  /** Scene `k + 1`'s block calls attempts 0 .. stop of that scene and nothing for any other. */
  lemma BlockRequests(scenes: seq<string>, k: nat, oracle: Oracle, decode: Decoder, other: nat)
    requires k < |scenes|
    ensures var calls := RequestsFor(SceneBlock(scenes, k, oracle, decode).events, other);
      if other == k + 1 then AttemptCalls(calls, k + 1, 0, StopAttempt(k + 1, 0, oracle, decode), scenes[k])
      else calls == []
  {
    var run := AttemptsFrom(scenes[k], k + 1, ColumnOf(k + 1, |scenes|), 0, oracle, decode);
    var pause: seq<Event> := if k > 0 then [Sleep(2)] else [];
    AttemptsRequests(scenes[k], k + 1, ColumnOf(k + 1, |scenes|), 0, oracle, decode);
    AttemptsOwnScene(scenes[k], k + 1, ColumnOf(k + 1, |scenes|), 0, oracle, decode, other);
    RequestsForAppend(pause, run.events, other);
    if k > 0 {
      assert pause[1..] == [];
    }
  }

  /** How the number of processed scenes changes from scene `k + 1` to scene `k + 2`. */
  lemma ProcessedStep(scenes: seq<string>, k: nat, oracle: Oracle, decode: Decoder)
    requires k < |scenes|
    ensures k < Processed(scenes, k, oracle, decode) <= |scenes|
    ensures Aborts(scenes, k, oracle, decode) ==> Processed(scenes, k, oracle, decode) == k + 1
    ensures !Aborts(scenes, k, oracle, decode) && k + 1 == |scenes| ==> Processed(scenes, k, oracle, decode) == k + 1
    ensures !Aborts(scenes, k, oracle, decode) && k + 1 < |scenes| ==>
      Processed(scenes, k, oracle, decode) == Processed(scenes, k + 1, oracle, decode)
  {
    FirstAbortIsFirst(scenes, k, oracle, decode);
    if !Aborts(scenes, k, oracle, decode) {
      FirstAbortIsFirst(scenes, k + 1, oracle, decode);
    }
  }

  /** From scene `k + 1` on, the log ends with the outcome of the last scene processed. */
  lemma {:induction false} BlocksLast(scenes: seq<string>, k: nat, oracle: Oracle, decode: Decoder)
    requires k < |scenes|
    ensures var events := BlocksFrom(scenes, k, oracle, decode);
      |events| > 0 && events[|events| - 1] == SceneOutcome(scenes, Processed(scenes, k, oracle, decode) - 1, oracle, decode)
    decreases |scenes| - k
  {
    var block := SceneBlock(scenes, k, oracle, decode);
    BlocksStep(scenes, k, oracle, decode);
    BlockOutcome(scenes, k, oracle, decode);
    ProcessedStep(scenes, k, oracle, decode);
    if !block.aborted {
      var rest := BlocksFrom(scenes, k + 1, oracle, decode);
      if k + 1 < |scenes| {
        BlocksLast(scenes, k + 1, oracle, decode);
        assert (block.events + rest)[|block.events + rest| - 1] == rest[|rest| - 1];
      } else {
        assert rest == [];
        assert block.events + rest == block.events;
      }
    }
  }

  /** Past its head, `[x] + s` is `s` shifted by one. */
  lemma ConsIndex<T>(x: T, s: seq<T>, i: nat)
    requires 0 < i <= |s|
    ensures ([x] + s)[i] == s[i - 1]
  {
  }

  /** The outcomes of scenes `k + 1` .. `m`, in scene order. */
  function OutcomesOf(scenes: seq<string>, k: nat, m: nat, oracle: Oracle, decode: Decoder): seq<Event>
    requires m <= |scenes|
    decreases m - k
  {
    if k < m then [SceneOutcome(scenes, k, oracle, decode)] + OutcomesOf(scenes, k + 1, m, oracle, decode) else []
  }

  /** `OutcomesOf` holds exactly one entry per scene, the outcome of that scene. */
  lemma {:induction false} OutcomesOfIndex(scenes: seq<string>, k: nat, m: nat, oracle: Oracle, decode: Decoder)
    requires k <= m <= |scenes|
    ensures |OutcomesOf(scenes, k, m, oracle, decode)| == m - k
    ensures forall i :: 0 <= i < m - k ==> OutcomesOf(scenes, k, m, oracle, decode)[i] == SceneOutcome(scenes, k + i, oracle, decode)
    decreases m - k
  {
    if k < m {
      OutcomesOfIndex(scenes, k + 1, m, oracle, decode);
      var head := SceneOutcome(scenes, k, oracle, decode);
      var tail := OutcomesOf(scenes, k + 1, m, oracle, decode);
      assert OutcomesOf(scenes, k, m, oracle, decode) == [head] + tail;
      forall i | 0 < i < m - k
        ensures ([head] + tail)[i] == SceneOutcome(scenes, k + i, oracle, decode)
      {
        ConsIndex(head, tail, i);
      }
    }
  }

  /** From scene `k + 1` on, the log holds one outcome per processed scene, in scene order. */
  lemma {:induction false} BlocksOutcomes(scenes: seq<string>, k: nat, oracle: Oracle, decode: Decoder)
    requires k < |scenes|
    ensures Processed(scenes, k, oracle, decode) <= |scenes|
    ensures Outcomes(BlocksFrom(scenes, k, oracle, decode))
      == OutcomesOf(scenes, k, Processed(scenes, k, oracle, decode), oracle, decode)
    decreases |scenes| - k
  {
    var block := SceneBlock(scenes, k, oracle, decode);
    var m := Processed(scenes, k, oracle, decode);
    BlocksStep(scenes, k, oracle, decode);
    BlockOutcome(scenes, k, oracle, decode);
    ProcessedStep(scenes, k, oracle, decode);
    assert OutcomesOf(scenes, k, m, oracle, decode)
      == [SceneOutcome(scenes, k, oracle, decode)] + OutcomesOf(scenes, k + 1, m, oracle, decode);
    if !block.aborted {
      var rest := BlocksFrom(scenes, k + 1, oracle, decode);
      OutcomesAppend(block.events, rest);
      if k + 1 < |scenes| {
        BlocksOutcomes(scenes, k + 1, oracle, decode);
      } else {
        assert rest == [];
      }
    }
  }

  /**
    From scene `k + 1` on, scene `idx` gets its attempts 0 .. stop, with its
    own prompt, when it is processed, and no call at all otherwise.
   */
  lemma {:induction false} BlocksRequests(scenes: seq<string>, k: nat, oracle: Oracle, decode: Decoder, idx: nat)
    requires k < |scenes|
    ensures var calls := RequestsFor(BlocksFrom(scenes, k, oracle, decode), idx);
      if k < idx <= Processed(scenes, k, oracle, decode) then
        AttemptCalls(calls, idx, 0, StopAttempt(idx, 0, oracle, decode), scenes[idx - 1])
      else calls == []
    decreases |scenes| - k
  {
    var block := SceneBlock(scenes, k, oracle, decode);
    BlocksStep(scenes, k, oracle, decode);
    BlockRequests(scenes, k, oracle, decode, idx);
    ProcessedStep(scenes, k, oracle, decode);
    if !block.aborted {
      var rest := BlocksFrom(scenes, k + 1, oracle, decode);
      RequestsForAppend(block.events, rest, idx);
      if k + 1 < |scenes| {
        BlocksRequests(scenes, k + 1, oracle, decode, idx);
      } else {
        assert rest == [];
      }
      if idx == k + 1 {
        assert RequestsFor(rest, idx) == [];
        assert RequestsFor(block.events + rest, idx) == RequestsFor(block.events, idx);
      } else {
        var own := RequestsFor(block.events, idx);
        assert own == [];
        assert own + RequestsFor(rest, idx) == RequestsFor(rest, idx);
      }
    }
  }

  /** The run sleeps two seconds between scenes and two after every retry warning. */
  lemma {:induction false} BlocksSleep(scenes: seq<string>, k: nat, oracle: Oracle, decode: Decoder)
    requires k < |scenes|
    ensures var events := BlocksFrom(scenes, k, oracle, decode);
      SleepUnits(events) + (if k == 0 then 2 else 0)
        == 2 * (Processed(scenes, k, oracle, decode) - k) + 2 * WarningCount(events)
    decreases |scenes| - k
  {
    var block := SceneBlock(scenes, k, oracle, decode);
    BlocksStep(scenes, k, oracle, decode);
    BlockOutcome(scenes, k, oracle, decode);
    SceneSleep(scenes, k, oracle, decode);
    ProcessedStep(scenes, k, oracle, decode);
    if !block.aborted {
      var rest := BlocksFrom(scenes, k + 1, oracle, decode);
      SleepUnitsAppend(block.events, rest);
      WarningCountAppend(block.events, rest);
      if k + 1 < |scenes| {
        BlocksSleep(scenes, k + 1, oracle, decode);
      } else {
        assert rest == [];
      }
    }
  }

  // ---------------------------------------------------------------------------
  // The Dream Sequence branch
  // ---------------------------------------------------------------------------

  /**
    With no scene, the branch shows one error and calls nothing; that
    happens exactly when the chat reply is all whitespace.
   */
  lemma NoScenesNoCalls(text: string, oracle: Oracle, decode: Decoder)
    ensures var events := DreamSequence(Scenes.SplitIntoScenes(text), oracle, decode);
      (Requests(events) == []) <==> (forall c :: c in text ==> c in Scenes.Whitespace)
    ensures Scenes.SplitIntoScenes(text) == [] ==> DreamSequence(Scenes.SplitIntoScenes(text), oracle, decode) == [Error(Main, NoScenesMessage)]
  {
    var scenes := Scenes.SplitIntoScenes(text);
    Scenes.NoScenesIffWhitespace(text);
    if scenes != [] {
      var events := BlocksFrom(scenes, 0, oracle, decode);
      BlocksRequests(scenes, 0, oracle, decode, 1);
      FirstAbortIsFirst(scenes, 0, oracle, decode);
      RequestsForIsSubsequence(events, 1);
    }
  }

  /** A call counted for one scene is a call. */
  lemma {:induction false} RequestsForIsSubsequence(events: seq<Event>, idx: nat)
    ensures RequestsFor(events, idx) != [] ==> Requests(events) != []
  {
    if events != [] {
      RequestsForIsSubsequence(events[1..], idx);
    }
  }

  /**
    Every scene gets at most three calls, all with its own prompt, numbered
    0, 1, ... and stopping at the first attempt that does not fail; scenes
    after the one an exception interrupts get none.
   */
  lemma CallsPerScene(scenes: seq<string>, oracle: Oracle, decode: Decoder, idx: nat)
    requires 1 <= idx <= |scenes|
    ensures var calls := RequestsFor(DreamSequence(scenes, oracle, decode), idx);
      && |calls| <= 3
      && (idx <= Processed(scenes, 0, oracle, decode) ==>
            AttemptCalls(calls, idx, 0, StopAttempt(idx, 0, oracle, decode), scenes[idx - 1]))
      && (idx > Processed(scenes, 0, oracle, decode) ==> calls == [])
  {
    BlocksRequests(scenes, 0, oracle, decode, idx);
    StopAttemptIsFirstNonFailure(idx, 0, oracle, decode);
  }

  /**
    The run processes the scenes in order, each settled by one outcome,
    until the last scene or the first exception; with no exception every
    scene is processed.
   */
  lemma ScenesInOrder(scenes: seq<string>, oracle: Oracle, decode: Decoder)
    requires scenes != []
    ensures var outcomes := Outcomes(DreamSequence(scenes, oracle, decode));
      var m := Processed(scenes, 0, oracle, decode);
      && 1 <= m <= |scenes|
      && |outcomes| == m
      && forall k :: 0 <= k < m ==> outcomes[k] == SceneOutcome(scenes, k, oracle, decode)
  {
    var m := Processed(scenes, 0, oracle, decode);
    assert DreamSequence(scenes, oracle, decode) == BlocksFrom(scenes, 0, oracle, decode);
    ProcessedStep(scenes, 0, oracle, decode);
    BlocksOutcomes(scenes, 0, oracle, decode);
    OutcomesOfIndex(scenes, 0, m, oracle, decode);
  }

  /** The log of a run with scenes ends with the outcome of the last scene processed. */
  lemma RunEndsWithLastOutcome(scenes: seq<string>, oracle: Oracle, decode: Decoder)
    requires scenes != []
    ensures var events := DreamSequence(scenes, oracle, decode);
      var m := Processed(scenes, 0, oracle, decode);
      && 1 <= m
      && |events| > 0 && events[|events| - 1] == SceneOutcome(scenes, m - 1, oracle, decode)
  {
    assert DreamSequence(scenes, oracle, decode) == BlocksFrom(scenes, 0, oracle, decode);
    ProcessedStep(scenes, 0, oracle, decode);
    BlocksLast(scenes, 0, oracle, decode);
  }

  /**
    A scene's outcome is its image or an error; it is in the main area
    exactly when the scene's loop is left by an exception, and in the
    scene's column otherwise.
   */
  lemma OutcomePlace(scenes: seq<string>, k: nat, oracle: Oracle, decode: Decoder)
    requires k < |scenes|
    ensures var outcome := SceneOutcome(scenes, k, oracle, decode);
      && (outcome.Image? || outcome.Error?)
      && (Aborts(scenes, k, oracle, decode) <==> outcome.Error? && outcome.place == Main)
      && (!Aborts(scenes, k, oracle, decode) ==> outcome.place == Column(ColumnOf(k + 1, |scenes|)))
  {
  }

  /**
    With no exception in any scene's loop, every scene is settled: the log
    holds one outcome per scene, in scene order, each in its scene's column.
   */
  lemma EveryScene(scenes: seq<string>, oracle: Oracle, decode: Decoder)
    requires scenes != []
    ensures (forall k :: 0 <= k < |scenes| ==> !Aborts(scenes, k, oracle, decode))
      <==> FirstAbort(scenes, 0, oracle, decode) == |scenes|
    ensures var outcomes := Outcomes(DreamSequence(scenes, oracle, decode));
      (forall k :: 0 <= k < |scenes| ==> !Aborts(scenes, k, oracle, decode)) ==>
        && |outcomes| == |scenes|
        && forall k :: 0 <= k < |scenes| ==>
             outcomes[k] == SceneOutcome(scenes, k, oracle, decode)
             && (outcomes[k].Image? || outcomes[k].Error?)
             && outcomes[k].place == Column(ColumnOf(k + 1, |scenes|))
  {
    FirstAbortIsFirst(scenes, 0, oracle, decode);
    if forall k :: 0 <= k < |scenes| ==> !Aborts(scenes, k, oracle, decode) {
      var outcomes := Outcomes(DreamSequence(scenes, oracle, decode));
      assert Processed(scenes, 0, oracle, decode) == |scenes|;
      ScenesInOrder(scenes, oracle, decode);
      forall k | 0 <= k < |scenes|
        ensures outcomes[k] == SceneOutcome(scenes, k, oracle, decode)
        ensures outcomes[k].Image? || outcomes[k].Error?
        ensures outcomes[k].place == Column(ColumnOf(k + 1, |scenes|))
      {
        OutcomePlace(scenes, k, oracle, decode);
      }
    }
  }

  /**
    The log ends with an error in the main area exactly when some scene's
    loop is left by an exception; otherwise it ends in a scene's column.
   */
  lemma LastEventShowsAbort(scenes: seq<string>, oracle: Oracle, decode: Decoder)
    requires scenes != []
    ensures var events := DreamSequence(scenes, oracle, decode);
      && |events| > 0
      && ((exists k :: 0 <= k < |scenes| && Aborts(scenes, k, oracle, decode))
          <==> (events[|events| - 1].Error? && events[|events| - 1].place == Main))
  {
    var f := FirstAbort(scenes, 0, oracle, decode);
    var m := Processed(scenes, 0, oracle, decode);
    RunEndsWithLastOutcome(scenes, oracle, decode);
    FirstAbortIsFirst(scenes, 0, oracle, decode);
    OutcomePlace(scenes, m - 1, oracle, decode);
    if f < |scenes| {
      assert m - 1 == f;
    } else {
      assert m - 1 == |scenes| - 1;
      assert !Aborts(scenes, m - 1, oracle, decode);
    }
  }

  /** An exception in scene `k + 1`'s loop ends the run with the outer handler's error. */
  lemma AbortEndsRun(scenes: seq<string>, oracle: Oracle, decode: Decoder)
    requires scenes != []
    ensures var events := DreamSequence(scenes, oracle, decode);
      var f := FirstAbort(scenes, 0, oracle, decode);
      f < |scenes| ==>
        && events[|events| - 1].Error? && events[|events| - 1].place == Main
        && forall idx :: f + 1 < idx <= |scenes| ==> RequestsFor(events, idx) == []
  {
    var f := FirstAbort(scenes, 0, oracle, decode);
    RunEndsWithLastOutcome(scenes, oracle, decode);
    FirstAbortIsFirst(scenes, 0, oracle, decode);
    forall idx | f + 1 < idx <= |scenes|
      ensures RequestsFor(DreamSequence(scenes, oracle, decode), idx) == []
    {
      BlocksRequests(scenes, 0, oracle, decode, idx);
    }
  }

  /** Total sleep: two seconds before every processed scene but the first, two after every warning. */
  lemma TotalSleep(scenes: seq<string>, oracle: Oracle, decode: Decoder)
    requires scenes != []
    ensures var events := DreamSequence(scenes, oracle, decode);
      SleepUnits(events) == 2 * (Processed(scenes, 0, oracle, decode) - 1) + 2 * WarningCount(events)
  {
    BlocksSleep(scenes, 0, oracle, decode);
    BlocksOutcomes(scenes, 0, oracle, decode);
  }

  /** Scene `idx` sits in column `(idx - 1) % min(3, n)`; the columns repeat every `min(3, n)` scenes. */
  lemma ColumnsRepeat(idx: nat, n: nat)
    requires 1 <= idx && 1 <= n
    ensures ColumnOf(idx + Min(3, n), n) == ColumnOf(idx, n)
  {
  }

  // ---------------------------------------------------------------------------
  // The branches on real replies
  // ---------------------------------------------------------------------------

  /**
    `call_banana_api` only returns an error dict or a one-element image
    list, so on its replies the loop never takes the "Unexpected response"
    branch, and a response with no candidates is an error-dict failure.
   */
  lemma RealRepliesNeverUnexpected(prompt: string, context: Option<seq<byte>>, post: Payload -> Transport, decode: Decoder)
    ensures ClassifyAttempt(CallBananaApi(prompt, context, post), decode) != Failed(UnexpectedResponse)
    ensures (post(BuildPayload(prompt, context)).Delivered?
             && post(BuildPayload(prompt, context)).response.candidates.None?) ==>
      ClassifyAttempt(CallBananaApi(prompt, context, post), decode) == Failed(ErrorResult(NoCandidatesMessage))
  {
  }

  /** Single Image mode: one call, nothing slept, no warning, exactly one outcome. */
  lemma SingleImageOneShot(text: string, reply: CallOutcome, decode: Decoder)
    ensures var events := SingleImage(text, reply, decode);
      && Requests(events) == [Request(0, 0, text)]
      && SleepUnits(events) == 0 && WarningCount(events) == 0
      && |Outcomes(events)| == (if reply.Raised? then 0 else 1)
  {
    var events := SingleImage(text, reply, decode);
    assert events == [events[0]] + [events[1]];
    RequestsAppend([events[0]], [events[1]]);
    SleepUnitsAppend([events[0]], [events[1]]);
    WarningCountAppend([events[0]], [events[1]]);
    OutcomesAppend([events[0]], [events[1]]);
  }
}
