/**
 * The cap on concurrent UDP associations in go/engine.go: admission callbacks and handler exits around one atomic
 * counter.
 */
module UdpSlots {
  const MAX_UDP_CONNS := 512

  /**
   * A flow: before its admission callback, refused but not yet taken back off the counter, refused, being handled,
   * over.
   */
  datatype Phase = Offered | Refusing | Refused | Live | Over

  datatype State = State(counter: int, flows: seq<Phase>)

  datatype Action =
    | Offer           // a new flow reaches the forwarder
    | Reserve(f: nat) // activeUDPConns.Add(1) and the comparison with its result
    | TakeBack(f: nat)
    | Exit(f: nat)    // the handler's deferred Add(-1)

  function Init(): State {
    State(0, [])
  }

  predicate Enabled(s: State, a: Action) {
    match a
    case Offer => true
    case Reserve(f) => f < |s.flows| && s.flows[f] == Offered
    case TakeBack(f) => f < |s.flows| && s.flows[f] == Refusing
    case Exit(f) => f < |s.flows| && s.flows[f] == Live
  }

  function Do(s: State, a: Action): State
    requires Enabled(s, a)
  {
    match a
    case Offer => s.(flows := s.flows + [Offered])
    case Reserve(f) => State(s.counter + 1, s.flows[f := if s.counter + 1 > MAX_UDP_CONNS then Refusing else Live])
    case TakeBack(f) => State(s.counter - 1, s.flows[f := Refused])
    case Exit(f) => State(s.counter - 1, s.flows[f := Over])
  }

  function Count(flows: seq<Phase>, ph: Phase): nat {
    if flows == [] then 0 else (if flows[0] == ph then 1 else 0) + Count(flows[1..], ph)
  }

  lemma {:induction false} CountAppend(flows: seq<Phase>, x: Phase, ph: Phase)
    ensures Count(flows + [x], ph) == Count(flows, ph) + if x == ph then 1 else 0
  {
    if flows == [] {
      assert [] + [x] == [x];
    } else {
      assert (flows + [x])[1..] == flows[1..] + [x];
      CountAppend(flows[1..], x, ph);
    }
  }

  lemma {:induction false} CountUpdate(flows: seq<Phase>, f: nat, x: Phase, ph: Phase)
    requires f < |flows|
    ensures Count(flows[f := x], ph) ==
            Count(flows, ph) + (if x == ph then 1 else 0) - (if flows[f] == ph then 1 else 0)
  {
    if f == 0 {
      assert flows[0 := x][1..] == flows[1..];
    } else {
      assert flows[f := x][1..] == flows[1..][f - 1 := x];
      CountUpdate(flows[1..], f - 1, x, ph);
    }
  }

  predicate Inv(s: State) {
    s.counter == Count(s.flows, Live) + Count(s.flows, Refusing) && Count(s.flows, Live) <= MAX_UDP_CONNS
  }

  lemma StepKeepsInv(s: State, a: Action)
    requires Inv(s) && Enabled(s, a)
    ensures Inv(Do(s, a))
  {
    if a.Offer? {
      CountAppend(s.flows, Offered, Live);
      CountAppend(s.flows, Offered, Refusing);
    } else {
      var x := Do(s, a).flows[a.f];
      CountUpdate(s.flows, a.f, x, Live);
      CountUpdate(s.flows, a.f, x, Refusing);
    }
  }

  ghost predicate IsRun(ss: seq<State>, acts: seq<Action>) {
    && |ss| == |acts| + 1 && ss[0] == Init()
    && forall i :: 0 <= i < |acts| ==> Enabled(ss[i], acts[i]) && ss[i + 1] == Do(ss[i], acts[i])
  }

  lemma {:induction false} RunKeepsInv(ss: seq<State>, acts: seq<Action>, n: nat)
    requires IsRun(ss, acts) && n < |ss|
    ensures Inv(ss[n])
  {
    if n > 0 {
      RunKeepsInv(ss, acts, n - 1);
      StepKeepsInv(ss[n - 1], acts[n - 1]);
    }
  }

  /**
   * However admissions and exits interleave, at most 512 handlers live, and the counter is exactly the slots in use.
   */
  lemma CapHolds(ss: seq<State>, acts: seq<Action>, n: nat)
    requires IsRun(ss, acts) && n < |ss|
    ensures Count(ss[n].flows, Live) <= 512
    ensures 0 <= ss[n].counter == Count(ss[n].flows, Live) + Count(ss[n].flows, Refusing)
  {
    RunKeepsInv(ss, acts, n);
  }

  /** A flow is refused exactly when live handlers and refusals still in progress together fill the slots. */
  lemma RefusedIff(ss: seq<State>, acts: seq<Action>, n: nat, f: nat)
    requires IsRun(ss, acts) && n < |acts| && acts[n] == Reserve(f)
    ensures ss[n + 1].flows[f] == Refusing <==>
            Count(ss[n].flows, Live) + Count(ss[n].flows, Refusing) >= 512
    ensures ss[n + 1].flows[f] == Refusing || ss[n + 1].flows[f] == Live
  {
    RunKeepsInv(ss, acts, n);
  }

  /** One callback at a time: no admission starts while a refusal has still to be taken back. */
  ghost predicate OneCallbackAtATime(ss: seq<State>, acts: seq<Action>)
    requires IsRun(ss, acts)
  {
    forall i :: 0 <= i < |acts| && acts[i].Reserve? ==> Refusing !in ss[i].flows
  }

  lemma {:induction false} CountZero(flows: seq<Phase>, ph: Phase)
    requires ph !in flows
    ensures Count(flows, ph) == 0
  {
    if flows != [] {
      CountZero(flows[1..], ph);
    }
  }

  /**
   * With the one synchronous caller the engine has, a flow is refused exactly when all 512 slots are held by live
   * handlers.
   */
  lemma RefusedOnlyWhenFull(ss: seq<State>, acts: seq<Action>, n: nat, f: nat)
    requires IsRun(ss, acts) && OneCallbackAtATime(ss, acts) && n < |acts| && acts[n] == Reserve(f)
    ensures ss[n + 1].flows[f] == Refusing <==> Count(ss[n].flows, Live) == 512
  {
    RefusedIff(ss, acts, n, f);
    CapHolds(ss, acts, n);
    CountZero(ss[n].flows, Refusing);
  }
}
