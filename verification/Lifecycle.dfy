/**
 * Who starts and who stops an engine: go/teapod_tun2socks.go hands each engine to one spawned Start and to API Stops,
 * and the read loop of go/engine.go stops its own engine when the TUN descriptor fails.
 */
module Lifecycle {
  import opened Bytes

  /**
   * The goroutine running Engine.Start: before its compare-and-swap, after it, with one and both loops launched,
   * returned.
   */
  datatype Starter = Spawned | Claimed | ReaderUp | Serving | Returned

  /**
   * A loop goroutine; Checking is the read loop's look at stopCh, Reading everything from its Read to the next look.
   */
  datatype Loop = Absent | Checking | Reading | Exited

  datatype Engine = Engine(running: bool, starter: Starter, closes: nat, reader: Loop, writer: Loop)

  /**
   * A call of Engine.Stop: before its compare-and-swap, after winning it, after close(stopCh), returned; or returned
   * at once.
   */
  datatype Phase = Called | Closing | Waiting | Finished | Lost

  datatype Stopper = Stopper(engine: nat, api: bool, phase: Phase)

  /** current is the engine field that the API's mutex guards. */
  datatype State = State(current: Option<nat>, engines: seq<Engine>, stoppers: seq<Stopper>)

  /** Steps of an engine's own goroutines. */
  datatype Act =
    | StartCas       // Engine.Start's compare-and-swap
    | LaunchReader
    | LaunchWriter
    | StartReturn    // Engine.Start gets past <-stopCh
    | ReaderCheck    // the select on stopCh
    | ReaderContinue // a read that delivered octets, and their handling
    | ReaderError    // a failed read: stop the engine asynchronously if it is running, and leave
    | WriterExit     // ReadContext gives nil once the context is cancelled, which only the winning Stop does

  datatype Action =
    | ApiStart
    | ApiStop
    | Own(e: nat, act: Act)
    | StopCas(k: nat)
    | Close(k: nat)
    | WaitDone(k: nat)

  function Init(): State {
    State(None, [], [])
  }

  predicate CanAct(g: Engine, act: Act) {
    match act
    case StartCas => g.starter == Spawned
    case LaunchReader => g.starter == Claimed
    case LaunchWriter => g.starter == ReaderUp
    case StartReturn => g.starter == Serving && g.closes > 0
    case ReaderCheck => g.reader == Checking
    case ReaderContinue => g.reader == Reading
    case ReaderError => g.reader == Reading
    case WriterExit => g.writer == Reading && !g.running
  }

  /** Whether the wait group of an engine is at zero. */
  predicate NoLoops(e: Engine) {
    (e.reader == Absent || e.reader == Exited) && (e.writer == Absent || e.writer == Exited)
  }

  predicate Enabled(s: State, a: Action) {
    match a
    case ApiStart => true
    case ApiStop => true
    case StopCas(k) => k < |s.stoppers| && s.stoppers[k].phase == Called && s.stoppers[k].engine < |s.engines|
    case Close(k) => k < |s.stoppers| && s.stoppers[k].phase == Closing && s.stoppers[k].engine < |s.engines|
    case WaitDone(k) =>
      && k < |s.stoppers| && s.stoppers[k].phase == Waiting && s.stoppers[k].engine < |s.engines|
      && NoLoops(s.engines[s.stoppers[k].engine])
    case Own(e, act) => e < |s.engines| && CanAct(s.engines[e], act)
  }

  function Acted(g: Engine, act: Act): Engine {
    match act
    case StartCas => if g.running then g.(starter := Returned) else g.(running := true, starter := Claimed)
    case LaunchReader => g.(starter := ReaderUp, reader := Checking)
    case LaunchWriter => g.(starter := Serving, writer := Reading)
    case StartReturn => g.(starter := Returned)
    case ReaderCheck => g.(reader := if g.closes > 0 then Exited else Reading)
    case ReaderContinue => g.(reader := Checking)
    case ReaderError => g.(reader := Exited)
    case WriterExit => g.(writer := Exited)
  }

  function Do(s: State, a: Action): State
    requires Enabled(s, a)
  {
    match a
    case ApiStart =>
      if s.current.Some? then s
      else State(Some(|s.engines|), s.engines + [Engine(false, Spawned, 0, Absent, Absent)], s.stoppers)
    case ApiStop =>
      if s.current.None? then s
      else State(None, s.engines, s.stoppers + [Stopper(s.current.value, true, Called)])
    case StopCas(k) => StopStep(s, k)
    case Close(k) =>
      var e := s.stoppers[k].engine;
      s.(engines := s.engines[e := s.engines[e].(closes := s.engines[e].closes + 1)],
         stoppers := s.stoppers[k := s.stoppers[k].(phase := Waiting)])
    case WaitDone(k) => s.(stoppers := s.stoppers[k := s.stoppers[k].(phase := Finished)])
    case Own(e, act) =>
      s.(engines := s.engines[e := Acted(s.engines[e], act)],
         stoppers := if act.ReaderError? && s.engines[e].running then s.stoppers + [Stopper(e, false, Called)]
                     else s.stoppers)
  }

  /** The compare-and-swap at the top of Engine.Stop. */
  function StopStep(s: State, k: nat): State
    requires k < |s.stoppers| && s.stoppers[k].engine < |s.engines|
  {
    var e := s.stoppers[k].engine;
    if s.engines[e].running then
      s.(engines := s.engines[e := s.engines[e].(running := false)],
         stoppers := s.stoppers[k := s.stoppers[k].(phase := Closing)])
    else
      s.(stoppers := s.stoppers[k := s.stoppers[k].(phase := Lost)])
  }

  /** Runs are lists of steps, each enabled where it is taken. */
  predicate Legal(s: State, acts: seq<Action>)
    decreases |acts|
  {
    acts == [] || (Enabled(s, acts[0]) && Legal(Do(s, acts[0]), acts[1..]))
  }

  function After(s: State, acts: seq<Action>): State
    requires Legal(s, acts)
    decreases |acts|
  {
    if acts == [] then s else After(Do(s, acts[0]), acts[1..])
  }

  /** How many calls of Stop have won the compare-and-swap of engine e and have yet to close its channel. */
  function ClosersOf(stoppers: seq<Stopper>, e: nat): nat {
    if stoppers == [] then 0
    else (if stoppers[0].engine == e && stoppers[0].phase == Closing then 1 else 0) + ClosersOf(stoppers[1..], e)
  }

  /** How many API calls of Stop were handed engine e. */
  function ApiStopsOf(stoppers: seq<Stopper>, e: nat): nat {
    if stoppers == [] then 0
    else (if stoppers[0].engine == e && stoppers[0].api then 1 else 0) + ApiStopsOf(stoppers[1..], e)
  }

  /** A started engine is in exactly one place: still running, in the hands of one closer, or closed once. */
  predicate Conserved(g: Engine, closers: nat) {
    Bit(g.running) + closers + g.closes == Bit(g.starter != Spawned)
  }

  /** An engine belongs to the API or was handed to exactly one API Stop. */
  predicate Owned(s: State, e: nat) {
    Bit(s.current == Some(e)) + ApiStopsOf(s.stoppers, e) == 1
  }

  predicate Fine(s: State, e: nat)
    requires e < |s.engines|
  {
    Conserved(s.engines[e], ClosersOf(s.stoppers, e)) && Owned(s, e)
  }

  /** Stoppers and the API name engines that exist. */
  predicate Scoped(s: State) {
    && (s.current.Some? ==> s.current.value < |s.engines|)
    && forall k :: 0 <= k < |s.stoppers| ==> s.stoppers[k].engine < |s.engines|
  }

  ghost predicate Inv(s: State) {
    Scoped(s) && forall e :: 0 <= e < |s.engines| ==> Fine(s, e)
  }

  lemma {:induction false} CountsOfAppend(stoppers: seq<Stopper>, x: Stopper, e: nat)
    ensures ClosersOf(stoppers + [x], e) == ClosersOf(stoppers, e) + Bit(x.engine == e && x.phase == Closing)
    ensures ApiStopsOf(stoppers + [x], e) == ApiStopsOf(stoppers, e) + Bit(x.engine == e && x.api)
  {
    if stoppers == [] {
      assert [] + [x] == [x];
    } else {
      assert (stoppers + [x])[1..] == stoppers[1..] + [x];
      CountsOfAppend(stoppers[1..], x, e);
    }
  }

  lemma {:induction false} CountsOfUpdate(stoppers: seq<Stopper>, k: nat, ph: Phase, e: nat)
    requires k < |stoppers|
    ensures ClosersOf(stoppers[k := stoppers[k].(phase := ph)], e)
         == ClosersOf(stoppers, e) + Bit(stoppers[k].engine == e && ph == Closing)
            - Bit(stoppers[k].engine == e && stoppers[k].phase == Closing)
    ensures ApiStopsOf(stoppers[k := stoppers[k].(phase := ph)], e) == ApiStopsOf(stoppers, e)
  {
    var after := stoppers[k := stoppers[k].(phase := ph)];
    if k == 0 {
      assert after[1..] == stoppers[1..];
    } else {
      assert after[1..] == stoppers[1..][k - 1 := stoppers[k].(phase := ph)];
      CountsOfUpdate(stoppers[1..], k - 1, ph, e);
    }
  }

  lemma {:induction false} CountsOutOfScope(stoppers: seq<Stopper>, e: nat)
    requires forall k :: 0 <= k < |stoppers| ==> stoppers[k].engine < e
    ensures ClosersOf(stoppers, e) == 0 && ApiStopsOf(stoppers, e) == 0
  {
    if stoppers != [] {
      CountsOutOfScope(stoppers[1..], e);
    }
  }

  lemma ScopeKept(s: State, a: Action)
    requires Scoped(s) && Enabled(s, a)
    ensures Scoped(Do(s, a)) && |Do(s, a).engines| >= |s.engines|
  {
  }

  lemma ApiStartKeepsFine(s: State, e: nat)
    requires Inv(s) && e < |Do(s, ApiStart).engines|
    ensures Fine(Do(s, ApiStart), e)
  {
    if e < |s.engines| {
      assert Fine(s, e);
    } else {
      CountsOutOfScope(s.stoppers, e);
    }
  }

  lemma ApiStopKeepsFine(s: State, e: nat)
    requires e < |s.engines| && Fine(s, e)
    ensures Fine(Do(s, ApiStop), e)
  {
    if s.current.Some? {
      CountsOfAppend(s.stoppers, Stopper(s.current.value, true, Called), e);
    }
  }

  lemma StopperKeepsFine(s: State, a: Action, e: nat)
    requires a.StopCas? || a.Close? || a.WaitDone?
    requires Enabled(s, a) && e < |s.engines| && Fine(s, e)
    ensures Fine(Do(s, a), e)
  {
    var ph := Do(s, a).stoppers[a.k].phase;
    CountsOfUpdate(s.stoppers, a.k, ph, e);
  }

  lemma ActKeepsConserved(g: Engine, act: Act, closers: nat)
    requires Conserved(g, closers) && CanAct(g, act)
    ensures Conserved(Acted(g, act), closers)
  {
  }

  lemma OwnKeepsFine(s: State, c: nat, act: Act, e: nat)
    requires Enabled(s, Own(c, act)) && e < |s.engines| && Fine(s, e)
    ensures Fine(Do(s, Own(c, act)), e)
  {
    CountsOfAppend(s.stoppers, Stopper(c, false, Called), e);
    if e == c {
      ActKeepsConserved(s.engines[e], act, ClosersOf(s.stoppers, e));
    }
  }

  /** Every step of every actor keeps the two conservation laws of every engine. */
  lemma StepKeepsInv(s: State, a: Action)
    requires Inv(s) && Enabled(s, a)
    ensures Inv(Do(s, a))
  {
    ScopeKept(s, a);
    forall e | 0 <= e < |Do(s, a).engines|
      ensures Fine(Do(s, a), e)
    {
      match a
      case ApiStart => ApiStartKeepsFine(s, e);
      case ApiStop => ApiStopKeepsFine(s, e);
      case StopCas(_) => StopperKeepsFine(s, a, e);
      case Close(_) => StopperKeepsFine(s, a, e);
      case WaitDone(_) => StopperKeepsFine(s, a, e);
      case Own(c, act) => OwnKeepsFine(s, c, act, e);
    }
  }

  lemma {:induction false} RunKeepsInv(s: State, acts: seq<Action>)
    requires Inv(s) && Legal(s, acts)
    ensures Inv(After(s, acts)) && |After(s, acts).engines| >= |s.engines|
    decreases |acts|
  {
    if acts != [] {
      StepKeepsInv(s, acts[0]);
      ScopeKept(s, acts[0]);
      RunKeepsInv(Do(s, acts[0]), acts[1..]);
    }
  }

  function Reached(acts: seq<Action>): State
    requires Legal(Init(), acts)
  {
    After(Init(), acts)
  }

  /**
   * However starts, API stops and read-loop self-stops interleave, an engine's stopCh is closed at most once: whoever
   * is about to close it finds it open, it is open while the engine runs, and an engine never finds itself already
   * running.
   */
  lemma ClosedAtMostOnce(acts: seq<Action>, e: nat)
    requires Legal(Init(), acts) && e < |Reached(acts).engines|
    ensures var s := Reached(acts);
            var g := s.engines[e];
            && g.closes <= 1
            && (g.running || g.starter == Spawned ==> g.closes == 0)
            && (g.starter == Spawned ==> !g.running)
            && forall k :: 0 <= k < |s.stoppers| && Enabled(s, Close(k)) && s.stoppers[k].engine == e ==> g.closes == 0
  {
    RunKeepsInv(Init(), acts);
    var s := Reached(acts);
    assert Fine(s, e);
    forall k | 0 <= k < |s.stoppers| && Enabled(s, Close(k)) && s.stoppers[k].engine == e
      ensures s.engines[e].closes == 0
    {
      CloserCounts(s.stoppers, k);
    }
  }

  lemma {:induction false} CloserCounts(stoppers: seq<Stopper>, k: nat)
    requires k < |stoppers| && stoppers[k].phase == Closing
    ensures ClosersOf(stoppers, stoppers[k].engine) > 0
  {
    if k > 0 {
      CloserCounts(stoppers[1..], k - 1);
    }
  }

  /** Each engine is the API's own until exactly one API Stop is handed it. */
  lemma OwnedOnce(acts: seq<Action>, e: nat)
    requires Legal(Init(), acts) && e < |Reached(acts).engines|
    ensures ApiStopsOf(Reached(acts).stoppers, e) == if Reached(acts).current == Some(e) then 0 else 1
  {
    RunKeepsInv(Init(), acts);
    assert Fine(Reached(acts), e);
  }

  predicate Runs(s: State, e: nat) {
    e < |s.engines| && s.engines[e].running
  }

  ghost predicate CanStillRun(s: State, e: nat) {
    exists acts :: Legal(s, acts) && Runs(After(s, acts), e)
  }

  predicate Over(s: State, e: nat) {
    e < |s.engines| && s.engines[e].starter != Spawned && !s.engines[e].running
  }

  lemma StepKeepsOver(s: State, a: Action, e: nat)
    requires Over(s, e) && Enabled(s, a)
    ensures Over(Do(s, a), e)
  {
  }

  lemma {:induction false} OverLasts(s: State, acts: seq<Action>, e: nat)
    requires Over(s, e) && Legal(s, acts)
    ensures Over(After(s, acts), e)
    decreases |acts|
  {
    if acts != [] {
      StepKeepsOver(s, acts[0], e);
      OverLasts(Do(s, acts[0]), acts[1..], e);
    }
  }

  lemma SpawnedRuns(s: State, e: nat)
    requires e < |s.engines| && s.engines[e].starter == Spawned && !s.engines[e].running
    ensures Legal(s, [Own(e, StartCas)]) && After(s, [Own(e, StartCas)]) == Do(s, Own(e, StartCas))
  {
    assert [Own(e, StartCas)][1..] == [];
  }

  lemma SpawnedCanRun(s: State, e: nat)
    requires e < |s.engines| && s.engines[e].starter == Spawned && !s.engines[e].running
    ensures CanStillRun(s, e)
  {
    SpawnedRuns(s, e);
    assert Runs(After(s, [Own(e, StartCas)]), e);
  }

  /**
   * A Stop does not always stop: once its compare-and-swap has been taken the engine can still come to run if and only
   * if the spawned Start has not yet taken its own.
   */
  lemma StopEndsEngineIff(acts: seq<Action>, k: nat)
    requires Legal(Init(), acts) && Enabled(Reached(acts), StopCas(k))
    ensures var s := Reached(acts);
            var e := s.stoppers[k].engine;
            CanStillRun(Do(s, StopCas(k)), e) <==> s.engines[e].starter == Spawned
  {
    var s := Reached(acts);
    var e := s.stoppers[k].engine;
    var t := Do(s, StopCas(k));
    ClosedAtMostOnce(acts, e);
    if s.engines[e].starter == Spawned {
      SpawnedCanRun(t, e);
    } else {
      forall rest | Legal(t, rest)
        ensures !Runs(After(t, rest), e)
      {
        OverLasts(t, rest, e);
      }
    }
  }

  lemma {:induction false} DisownedLasts(s: State, acts: seq<Action>, e: nat)
    requires Legal(s, acts) && s.current != Some(e) && e < |s.engines|
    ensures After(s, acts).current != Some(e) && e < |After(s, acts).engines|
    decreases |acts|
  {
    if acts != [] {
      DisownedLasts(Do(s, acts[0]), acts[1..], e);
    }
  }

  /**
   * An engine handed to an API Stop is beyond the API for good: no later API Stop ever reaches it, even if it runs
   * on.
   */
  lemma StoppedIsDisowned(acts: seq<Action>, rest: seq<Action>, e: nat)
    requires Legal(Init(), acts) && e < |Reached(acts).engines| && Reached(acts).current != Some(e)
    requires Legal(Reached(acts), rest)
    ensures After(Reached(acts), rest).current != Some(e)
    ensures ApiStopsOf(After(Reached(acts), rest).stoppers, e) == 1
  {
    RunKeepsInv(Init(), acts);
    RunKeepsInv(Reached(acts), rest);
    DisownedLasts(Reached(acts), rest, e);
    assert Fine(After(Reached(acts), rest), e);
  }

  /** The failing family has a member: Start, Stop, the Stop's compare-and-swap, and only then the spawned Start's. */
  lemma StopBeforeStartOrphansEngine()
    ensures var acts := [ApiStart, ApiStop, StopCas(0), Own(0, StartCas)];
            && Legal(Init(), acts)
            && Runs(Reached(acts), 0) && Reached(acts).current == None
            && Reached(acts).stoppers == [Stopper(0, true, Lost)]
  {
    var s1 := State(Some(0), [Engine(false, Spawned, 0, Absent, Absent)], []);
    var s2 := State(None, s1.engines, [Stopper(0, true, Called)]);
    var s3 := State(None, s1.engines, [Stopper(0, true, Lost)]);
    var acts := [ApiStart, ApiStop, StopCas(0), Own(0, StartCas)];
    assert Do(Init(), ApiStart) == s1;
    assert Do(s1, ApiStop) == s2;
    assert Do(s2, StopCas(0)) == s3;
    SpawnedRuns(s3, 0);
    assert acts[1..] == [ApiStop, StopCas(0), Own(0, StartCas)];
    assert acts[1..][1..] == [StopCas(0), Own(0, StartCas)];
    assert acts[1..][1..][1..] == [Own(0, StartCas)];
    assert Legal(s2, acts[1..][1..]) && After(s2, acts[1..][1..]) == After(s3, [Own(0, StartCas)]);
    assert Legal(s1, acts[1..]) && After(s1, acts[1..]) == After(s3, [Own(0, StartCas)]);
  }

  /** If call k of Stop waits for the loops, or has waited, its engine's stopCh is closed. */
  predicate ClosedFor(s: State, k: nat) {
    k < |s.stoppers| && (s.stoppers[k].phase == Waiting || s.stoppers[k].phase == Finished) ==>
      s.stoppers[k].engine < |s.engines| && s.engines[s.stoppers[k].engine].closes > 0
  }

  ghost predicate ClosedBefore(s: State) {
    forall k: nat :: ClosedFor(s, k)
  }

  lemma StepKeepsClosedFor(s: State, a: Action, k: nat)
    requires ClosedFor(s, k) && Enabled(s, a)
    ensures ClosedFor(Do(s, a), k)
  {
  }

  lemma StepKeepsClosedBefore(s: State, a: Action)
    requires ClosedBefore(s) && Enabled(s, a)
    ensures ClosedBefore(Do(s, a))
  {
    forall k: nat ensures ClosedFor(Do(s, a), k) {
      StepKeepsClosedFor(s, a, k);
    }
  }

  lemma {:induction false} RunKeepsClosedBefore(s: State, acts: seq<Action>)
    requires ClosedBefore(s) && Legal(s, acts)
    ensures ClosedBefore(After(s, acts))
    decreases |acts|
  {
    if acts != [] {
      StepKeepsClosedBefore(s, acts[0]);
      RunKeepsClosedBefore(Do(s, acts[0]), acts[1..]);
    }
  }

  predicate Quiet(s: State, e: nat) {
    e < |s.engines| && s.engines[e].closes > 0 && s.engines[e].reader != Reading
  }

  lemma {:induction false} QuietLasts(s: State, acts: seq<Action>, e: nat)
    requires Quiet(s, e) && Legal(s, acts)
    ensures Quiet(After(s, acts), e)
    decreases |acts|
  {
    if acts != [] {
      StepKeepsQuiet(s, acts[0], e);
      QuietLasts(Do(s, acts[0]), acts[1..], e);
    }
  }

  lemma StepKeepsQuiet(s: State, a: Action, e: nat)
    requires Quiet(s, e) && Enabled(s, a)
    ensures Quiet(Do(s, a), e)
  {
  }

  /**
   * Once a Stop that won has returned, its engine never reads another packet, even if its read loop was yet to be
   * launched.
   */
  lemma NothingReadAfterStop(acts: seq<Action>, k: nat, rest: seq<Action>)
    requires Legal(Init(), acts) && Enabled(Reached(acts), WaitDone(k))
    requires Legal(Do(Reached(acts), WaitDone(k)), rest)
    ensures Quiet(After(Do(Reached(acts), WaitDone(k)), rest), Reached(acts).stoppers[k].engine)
  {
    RunKeepsClosedBefore(Init(), acts);
    assert ClosedFor(Reached(acts), k);
    QuietLasts(Do(Reached(acts), WaitDone(k)), rest, Reached(acts).stoppers[k].engine);
  }

  /** Some call of Stop on engine e has yet to make its compare-and-swap. */
  ghost predicate BeingStopped(s: State, e: nat) {
    exists k :: 0 <= k < |s.stoppers| && s.stoppers[k].engine == e && s.stoppers[k].phase == Called
  }

  /** The read loop of a running engine leaves only behind a Stop of that engine. */
  ghost predicate Attended(s: State, e: nat) {
    e < |s.engines| && (s.engines[e].starter == Spawned ==> s.engines[e].reader == Absent) &&
    (s.engines[e].running && s.engines[e].reader == Exited ==> BeingStopped(s, e))
  }

  /** A pending Stop stays pending unless it is its own compare-and-swap that is taken. */
  lemma PendingStays(s: State, a: Action, k: nat)
    requires Enabled(s, a) && k < |s.stoppers| && a != StopCas(k) && s.stoppers[k].phase == Called
    ensures k < |Do(s, a).stoppers| && Do(s, a).stoppers[k] == s.stoppers[k]
  {
  }

  lemma ReaderFailureIsAttended(s: State, e: nat)
    requires Enabled(s, Own(e, ReaderError)) && s.engines[e].running
    ensures BeingStopped(Do(s, Own(e, ReaderError)), e)
  {
    var t := Do(s, Own(e, ReaderError));
    assert t.stoppers[|s.stoppers|] == Stopper(e, false, Called);
  }

  /** How an engine comes to run without a reader in one step: it did before, or its reader fails. */
  lemma HowReaderLeaves(s: State, a: Action, e: nat)
    requires Enabled(s, a) && e < |s.engines| && (s.engines[e].running ==> s.engines[e].closes == 0)
    requires s.engines[e].starter == Spawned ==> s.engines[e].reader == Absent
    requires Runs(Do(s, a), e) && Do(s, a).engines[e].reader == Exited
    ensures s.engines[e].running
    ensures s.engines[e].reader == Exited || a == Own(e, ReaderError)
    ensures a.StopCas? ==> s.stoppers[a.k].engine != e
  {
  }

  lemma StepKeepsAttended(s: State, a: Action, e: nat)
    requires Attended(s, e) && Enabled(s, a) && (s.engines[e].running ==> s.engines[e].closes == 0)
    ensures Attended(Do(s, a), e)
  {
    var t := Do(s, a);
    if t.engines[e].running && t.engines[e].reader == Exited {
      HowReaderLeaves(s, a, e);
      if a == Own(e, ReaderError) {
        ReaderFailureIsAttended(s, e);
      } else {
        var k :| 0 <= k < |s.stoppers| && s.stoppers[k].engine == e && s.stoppers[k].phase == Called;
        PendingStays(s, a, k);
      }
    }
  }

  ghost predicate AllAttended(s: State) {
    forall e :: 0 <= e < |s.engines| ==> Attended(s, e)
  }

  lemma StepKeepsAllAttended(s: State, a: Action)
    requires Inv(s) && AllAttended(s) && Enabled(s, a)
    ensures AllAttended(Do(s, a))
  {
    forall e | 0 <= e < |Do(s, a).engines|
      ensures Attended(Do(s, a), e)
    {
      if e < |s.engines| {
        assert Fine(s, e) && Attended(s, e);
        StepKeepsAttended(s, a, e);
      }
    }
  }

  lemma {:induction false} RunKeepsAllAttended(s: State, acts: seq<Action>)
    requires Inv(s) && AllAttended(s) && Legal(s, acts)
    ensures AllAttended(After(s, acts))
    decreases |acts|
  {
    if acts != [] {
      StepKeepsInv(s, acts[0]);
      StepKeepsAllAttended(s, acts[0]);
      RunKeepsAllAttended(Do(s, acts[0]), acts[1..]);
    }
  }

  /**
   * An engine whose read loop has failed never runs on unattended: some Stop is about to take its compare-and-swap,
   * and wins it.
   */
  lemma FailureLeadsToStop(acts: seq<Action>, e: nat) returns (k: nat)
    requires Legal(Init(), acts) && Runs(Reached(acts), e) && Reached(acts).engines[e].reader == Exited
    ensures Enabled(Reached(acts), StopCas(k)) && Reached(acts).stoppers[k].engine == e
    ensures Over(Do(Reached(acts), StopCas(k)), e)
  {
    RunKeepsInv(Init(), acts);
    RunKeepsAllAttended(Init(), acts);
    var s := Reached(acts);
    assert Attended(s, e) && Fine(s, e);
    k :| 0 <= k < |s.stoppers| && s.stoppers[k].engine == e && s.stoppers[k].phase == Called;
  }

  // ---------- both loops run ----------

  /** How far the start has come decides which loops have been launched. */
  predicate Launched(g: Engine) {
    && (g.starter == Spawned || g.starter == Claimed ==> g.reader == Absent && g.writer == Absent)
    && (g.starter == ReaderUp ==> g.reader != Absent && g.writer == Absent)
    && (g.starter == Serving ==> g.reader != Absent && g.writer != Absent)
    && (g.writer == Exited ==> !g.running) && g.writer != Checking
    && (g.starter == Spawned ==> !g.running)
    && (g.starter == Returned ==> g.closes > 0)
  }

  lemma ActKeepsLaunched(g: Engine, act: Act)
    requires Launched(g) && CanAct(g, act)
    ensures Launched(Acted(g, act))
  {
  }

  ghost predicate AllLaunched(s: State) {
    forall e :: 0 <= e < |s.engines| ==> Launched(s.engines[e])
  }

  lemma StepKeepsLaunched(s: State, a: Action)
    requires AllLaunched(s) && Enabled(s, a)
    ensures AllLaunched(Do(s, a))
  {
    if a.Own? {
      ActKeepsLaunched(s.engines[a.e], a.act);
    }
  }

  lemma {:induction false} RunKeepsLaunched(s: State, acts: seq<Action>)
    requires AllLaunched(s) && Legal(s, acts)
    ensures AllLaunched(After(s, acts))
    decreases |acts|
  {
    if acts != [] {
      StepKeepsLaunched(s, acts[0]);
      RunKeepsLaunched(Do(s, acts[0]), acts[1..]);
    }
  }

  /**
   * A Start that waits for its channel has launched both loops, and the write loop of a running engine has not left; a
   * Start returns only after stopCh was closed.
   */
  lemma ServingMeansLaunched(acts: seq<Action>, e: nat)
    requires Legal(Init(), acts) && e < |Reached(acts).engines|
    ensures var g := Reached(acts).engines[e];
            && (g.starter == Serving ==> g.reader != Absent && g.writer != Absent)
            && (g.starter == Serving && g.running ==> g.writer == Reading)
            && (g.starter == Claimed ==> g.reader == Absent && g.writer == Absent)
            && (g.starter == Returned ==> g.closes > 0)
  {
    RunKeepsLaunched(Init(), acts);
    assert Launched(Reached(acts).engines[e]);
  }
}
