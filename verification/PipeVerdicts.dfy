/** No flow is condemned that was active: what an expired verdict says about the stamps, under any interleaving. */
module PipeVerdicts {
  import opened Bytes
  import opened IdleVerdict
  import opened PipePair
  import opened PipeSafety

  // ---------- stamps and the clock along a run ----------

  lemma StepStampsGrow(p: Pipe, v: View, ch: Choice)
    requires CanStep(p, v, ch)
    ensures p.stamps <= StepPipe(p, v, ch).stamps
  {
  }

  /** The stamps of s are all in t, and t is no earlier. */
  predicate Precedes(s: State, t: State) {
    s.tx.stamps <= t.tx.stamps && s.rx.stamps <= t.rx.stamps && s.clock <= t.clock
  }

  lemma StepPrecedes(s: State, a: Action)
    requires Enabled(s, a)
    ensures Precedes(s, Do(s, a))
  {
    if a.Move? {
      StepStampsGrow(Of(s, a.d), ViewOf(s, a.d), a.ch);
    }
  }

  /** State i precedes its successor, if it has one. */
  predicate GrowsAt(ss: seq<State>, i: nat) {
    i + 1 < |ss| ==> Precedes(ss[i], ss[i + 1])
  }

  lemma RunGrowsAt(ss: seq<State>, acts: seq<Action>, start: State, i: nat)
    requires IsRun(ss, acts, start)
    ensures GrowsAt(ss, i)
  {
    if i < |acts| {
      StepPrecedes(ss[i], acts[i]);
    }
  }

  lemma {:induction false} GrowingPrecedes(ss: seq<State>, m: nat, n: nat)
    requires m <= n < |ss| && forall i: nat :: GrowsAt(ss, i)
    ensures Precedes(ss[m], ss[n])
    decreases n - m
  {
    if m < n {
      GrowingPrecedes(ss, m, n - 1);
      assert GrowsAt(ss, n - 1);
    }
  }

  lemma StampsGrow(ss: seq<State>, acts: seq<Action>, start: State, m: nat, n: nat)
    requires IsRun(ss, acts, start) && m <= n < |ss|
    ensures Precedes(ss[m], ss[n])
  {
    forall i: nat ensures GrowsAt(ss, i) {
      RunGrowsAt(ss, acts, start, i);
    }
    GrowingPrecedes(ss, m, n);
  }

  lemma LastIsLatest(a: seq<int>, b: seq<int>)
    requires a <= b && b != [] && Nondecreasing(b)
    ensures forall i :: 0 <= i < |a| ==> a[i] <= Last(b)
  {
    forall i | 0 <= i < |a| ensures a[i] <= Last(b) {
      assert a[i] == b[i];
    }
  }

  // ---------- the three reads of a judgement ----------

  predicate Judging(pc: PC) {
    pc.LoadingTx? || pc.LoadingRx?
  }

  /** Pipe d read the clock in state m and has been judging by that reading ever since, up to state n. */
  ghost predicate Sampled(ss: seq<State>, acts: seq<Action>, d: Dir, m: nat, n: nat) {
    && m < n < |ss| == |acts| + 1 && acts[m] == Move(d, Go) && Of(ss[m], d).pc.SamplingNow?
    && forall j :: m < j <= n ==> Judging(Of(ss[j], d).pc) && Of(ss[j], d).pc.now == Millis(ss[m].clock)
  }

  /** Pipe d loaded the app's stamp in state l and has had to load the proxy's ever since, up to state n. */
  ghost predicate LoadedTx(ss: seq<State>, acts: seq<Action>, d: Dir, l: nat, n: nat) {
    && l < n < |ss| == |acts| + 1 && acts[l] == Move(d, Go) && Of(ss[l], d).pc.LoadingTx? && ss[l].tx.stamps != []
    && forall j :: l < j <= n ==> Of(ss[j], d).pc.LoadingRx? && Of(ss[j], d).pc.tx == Last(ss[l].tx.stamps)
  }

  lemma OtherPipeWaits(s: State, a: Action, d: Dir)
    requires Enabled(s, a) && !(a.Move? && a.d == d)
    ensures Of(Do(s, a), d) == Of(s, d)
  {
  }

  lemma LoadingStep(s: State, d: Dir, ch: Choice)
    requires Enabled(s, Move(d, ch)) && Judging(Of(Do(s, Move(d, ch)), d).pc)
    ensures ch == Go
    ensures var pc, was := Of(Do(s, Move(d, ch)), d).pc, Of(s, d).pc;
            if pc.LoadingTx? then was.SamplingNow? && pc.now == Millis(s.clock)
            else was.LoadingTx? && pc.now == was.now && s.tx.stamps != [] && pc.tx == Last(s.tx.stamps)
  {
  }

  /** Every judgement in progress began with one sampling of the clock, before either stamp was loaded. */
  lemma {:induction false} JudgementBegan(ss: seq<State>, acts: seq<Action>, start: State, n: nat, d: Dir)
    returns (m: nat)
    requires IsRun(ss, acts, start) && start.tx.pc.GetBuffer? && start.rx.pc.GetBuffer? && n < |ss|
    requires Judging(Of(ss[n], d).pc)
    ensures Sampled(ss, acts, d, m, n)
  {
    assert n > 0;
    var s, a := ss[n - 1], acts[n - 1];
    if a.Move? && a.d == d {
      LoadingStep(s, d, a.ch);
      if Of(ss[n], d).pc.LoadingTx? {
        m := n - 1;
      } else {
        m := JudgementBegan(ss, acts, start, n - 1, d);
      }
    } else {
      OtherPipeWaits(s, a, d);
      m := JudgementBegan(ss, acts, start, n - 1, d);
    }
  }

  lemma {:induction false} TxWasLoaded(ss: seq<State>, acts: seq<Action>, start: State, n: nat, d: Dir) returns (l: nat)
    requires IsRun(ss, acts, start) && start.tx.pc.GetBuffer? && start.rx.pc.GetBuffer? && n < |ss|
    requires Of(ss[n], d).pc.LoadingRx?
    ensures LoadedTx(ss, acts, d, l, n)
  {
    assert n > 0;
    var s, a := ss[n - 1], acts[n - 1];
    if a.Move? && a.d == d {
      LoadingStep(s, d, a.ch);
      l := n - 1;
    } else {
      OtherPipeWaits(s, a, d);
      l := TxWasLoaded(ss, acts, start, n - 1, d);
    }
  }

  lemma JudgingStep(s: State, d: Dir)
    requires Enabled(s, Move(d, Go)) && Of(s, d).pc.LoadingRx?
    ensures var pc, t := Of(s, d).pc, Of(Do(s, Move(d, Go)), d);
            s.rx.stamps != [] &&
            var v := Judge(pc.tx, Last(s.rx.stamps), pc.now);
            (t.pc.ShuttingDown? <==> v != Keep) && (v != Keep ==> t.cause == Some(Expired(v == Zombie)))
  {
  }

  /** The judgement pipe d completes in state n: m is where it read the clock, l where it loaded the app's stamp. */
  ghost predicate Judgement(ss: seq<State>, acts: seq<Action>, d: Dir, m: nat, l: nat, n: nat) {
    && n < |acts| < |ss| && acts[n] == Move(d, Go) && Of(ss[n], d).pc.LoadingRx? && ss[n].rx.stamps != []
    && Sampled(ss, acts, d, m, n) && LoadedTx(ss, acts, d, l, n) && m < l
  }

  /** What that judgement must come to. */
  ghost function VerdictOf(ss: seq<State>, acts: seq<Action>, d: Dir, m: nat, l: nat, n: nat): Verdict
    requires Judgement(ss, acts, d, m, l, n)
  {
    Judge(Last(ss[l].tx.stamps), Last(ss[n].rx.stamps), Millis(ss[m].clock))
  }

  /** A judgement made up of reads at three moments, in this order, and what it does to the flow. */
  lemma VerdictReads(ss: seq<State>, acts: seq<Action>, clock: int, up: seq<byte>, down: seq<byte>, n: nat, d: Dir)
    returns (m: nat, l: nat)
    requires IsRun(ss, acts, Start(clock, up, down)) && n < |acts|
    requires acts[n] == Move(d, Go) && Of(ss[n], d).pc.LoadingRx?
    ensures Judgement(ss, acts, d, m, l, n)
    ensures var v := VerdictOf(ss, acts, d, m, l, n);
            (Of(ss[n + 1], d).pc.ShuttingDown? <==> v != Keep) &&
            (v != Keep ==> Of(ss[n + 1], d).cause == Some(Expired(v == Zombie)))
  {
    var start := Start(clock, up, down);
    m := JudgementBegan(ss, acts, start, n, d);
    l := TxWasLoaded(ss, acts, start, n, d);
    assert !(l < m <= n) && l != m;
    JudgingStep(ss[n], d);
  }

  // ---------- no false kill ----------

  /** What idleVerdict would say if it could read the clock and both stamps at once. */
  predicate Condemned(s: State) {
    s.tx.stamps != [] && s.rx.stamps != [] && Judge(Last(s.tx.stamps), Last(s.rx.stamps), Millis(s.clock)) != Keep
  }

  /** All stamps are at least ms old on a clock showing now. */
  predicate Silent(stamps: seq<int>, now: int, ms: int) {
    forall i :: 0 <= i < |stamps| ==> now - stamps[i] >= ms
  }

  lemma SilentByLast(stamps: seq<int>, now: int, ms: int)
    requires stamps != [] && Nondecreasing(stamps)
    ensures Silent(stamps, now, ms) <==> now - Last(stamps) >= ms
  {
    LastIsLatest(stamps, stamps);
  }

  lemma PrefixSilent(a: seq<int>, b: seq<int>, now: int, ms: int)
    requires a <= b && Silent(b, now, ms)
    ensures Silent(a, now, ms)
  {
    forall i | 0 <= i < |a| ensures now - a[i] >= ms {
      assert a[i] == b[i];
    }
  }

  /**
   * A kill has an instant, between the clock reading and the end of the judgement, at which an undivided one would
   * have condemned too.
   */
  lemma KillHasAnInstant(ss: seq<State>, acts: seq<Action>, clock: int, up: seq<byte>, down: seq<byte>, n: nat, d: Dir)
    returns (m: nat, l: nat)
    requires IsRun(ss, acts, Start(clock, up, down)) && n < |acts|
    requires acts[n] == Move(d, Go) && Of(ss[n], d).pc.LoadingRx? && Of(ss[n + 1], d).pc.ShuttingDown?
    ensures Judgement(ss, acts, d, m, l, n) && VerdictOf(ss, acts, d, m, l, n) != Keep
    ensures Condemned(ss[l])
  {
    m, l := VerdictReads(ss, acts, clock, up, down, n, d);
    StartInv(clock, up, down);
    RunKeepsInv(ss, acts, Start(clock, up, down), l);
    RunKeepsInv(ss, acts, Start(clock, up, down), n);
    StampsGrow(ss, acts, Start(clock, up, down), m, l);
    StampsGrow(ss, acts, Start(clock, up, down), l, n);
    EarlierStateCondemned(ss[m], ss[l], ss[n]);
  }

  lemma EarlierStateCondemned(r: State, s: State, t: State)
    requires Precedes(r, s) && Precedes(s, t)
    requires s.tx.stamps != [] && s.rx.stamps != [] && t.rx.stamps != [] && Nondecreasing(t.rx.stamps)
    requires Judge(Last(s.tx.stamps), Last(t.rx.stamps), Millis(r.clock)) != Keep
    ensures Condemned(s)
  {
    LastIsLatest(s.rx.stamps, t.rx.stamps);
    CondemnationLasts(Last(s.tx.stamps), Last(t.rx.stamps), Millis(r.clock), Last(s.rx.stamps), Millis(s.clock));
  }

  /**
   * A pipe that condemns the flow read the clock in state m and judged by that reading without interruption. By then
   * every stamp stored by the app's side, and every one stored by the proxy's side until the verdict, was at least 2
   * minutes old, and at least 5 unless the app's side had been active last.
   */
  lemma NoFalseKill(ss: seq<State>, acts: seq<Action>, clock: int, up: seq<byte>, down: seq<byte>, n: nat, d: Dir)
    returns (m: nat)
    requires IsRun(ss, acts, Start(clock, up, down)) && n < |acts|
    requires acts[n] == Move(d, Go) && Of(ss[n], d).pc.LoadingRx? && Of(ss[n + 1], d).pc.ShuttingDown?
    ensures m < n && acts[m] == Move(d, Go) && Of(ss[m], d).pc.SamplingNow?
    ensures Of(ss[n], d).pc.now == Millis(ss[m].clock) && forall j :: m < j <= n ==> Judging(Of(ss[j], d).pc)
    ensures Of(ss[n + 1], d).cause.Some? && Of(ss[n + 1], d).cause.value.Expired?
    ensures var zombie := Of(ss[n + 1], d).cause.value.zombie;
            var least, now := if zombie then 120_000 else 300_000, Millis(ss[m].clock);
            && Silent(ss[m].tx.stamps, now, least) && Silent(ss[n].rx.stamps, now, least)
            && ss[n].tx.stamps != [] && ss[n].rx.stamps != []
            && (zombie ==> Last(ss[n].tx.stamps) > Last(ss[n].rx.stamps))
  {
    var l: nat;
    m, l := VerdictReads(ss, acts, clock, up, down, n, d);
    StartInv(clock, up, down);
    RunKeepsInv(ss, acts, Start(clock, up, down), l);
    RunKeepsInv(ss, acts, Start(clock, up, down), n);
    StampsGrow(ss, acts, Start(clock, up, down), m, l);
    StampsGrow(ss, acts, Start(clock, up, down), l, n);
    VerdictMeansSilence(ss[m], ss[l], ss[n]);
  }

  lemma VerdictMeansSilence(r: State, s: State, t: State)
    requires Precedes(r, s) && Precedes(s, t) && s.tx.stamps != [] && t.rx.stamps != []
    requires Nondecreasing(s.tx.stamps) && Nondecreasing(t.tx.stamps) && Nondecreasing(t.rx.stamps)
    requires Judge(Last(s.tx.stamps), Last(t.rx.stamps), Millis(r.clock)) != Keep
    ensures var zombie := Judge(Last(s.tx.stamps), Last(t.rx.stamps), Millis(r.clock)) == Zombie;
            var least, now := if zombie then 120_000 else 300_000, Millis(r.clock);
            && Silent(r.tx.stamps, now, least) && Silent(t.rx.stamps, now, least)
            && t.tx.stamps != [] && (zombie ==> Last(t.tx.stamps) > Last(t.rx.stamps))
  {
    var zombie := Judge(Last(s.tx.stamps), Last(t.rx.stamps), Millis(r.clock)) == Zombie;
    var least, now := if zombie then 120_000 else 300_000, Millis(r.clock);
    SilentByLast(s.tx.stamps, now, least);
    SilentByLast(t.rx.stamps, now, least);
    PrefixSilent(r.tx.stamps, s.tx.stamps, now, least);
    LastIsLatest(s.tx.stamps, t.tx.stamps);
  }

  // ---------- active flows survive, dead ones stay dead ----------

  /** Stamped in the last 2 minutes in some direction, or in the last 5 with the proxy's side active last. */
  predicate RecentlyActive(s: State) {
    var now := Millis(s.clock);
    || !Silent(s.tx.stamps, now, 120_000) || !Silent(s.rx.stamps, now, 120_000)
    || (s.tx.stamps != [] && s.rx.stamps != [] && Last(s.tx.stamps) <= Last(s.rx.stamps) &&
        (!Silent(s.tx.stamps, now, 300_000) || !Silent(s.rx.stamps, now, 300_000)))
  }

  lemma CondemnedIffInactive(s: State)
    requires StampedBy(s.tx, s.clock) && StampedBy(s.rx, s.clock)
    ensures Condemned(s) <==> !RecentlyActive(s)
  {
    var now := Millis(s.clock);
    CondemnedIff(Last(s.tx.stamps), Last(s.rx.stamps), now);
    SilentByLast(s.tx.stamps, now, 120_000);
    SilentByLast(s.rx.stamps, now, 120_000);
    SilentByLast(s.tx.stamps, now, 300_000);
    SilentByLast(s.rx.stamps, now, 300_000);
  }

  predicate Killed(p: Pipe) {
    p.cause.Some? && p.cause.value.Expired?
  }

  lemma HowKilled(s: State, a: Action, d: Dir)
    requires Enabled(s, a) && !Killed(Of(s, d)) && Killed(Of(Do(s, a), d))
    ensures a == Move(d, Go) && Of(s, d).pc.LoadingRx? && Of(Do(s, a), d).pc.ShuttingDown?
  {
  }

  /** A flow that is recently active in every state of a run is never closed by the idle verdict. */
  lemma {:induction false} ActiveFlowsSurvive(
      ss: seq<State>, acts: seq<Action>, clock: int, up: seq<byte>, down: seq<byte>, n: nat, d: Dir)
    requires IsRun(ss, acts, Start(clock, up, down)) && n < |ss|
    requires forall j :: 0 <= j < n ==> RecentlyActive(ss[j])
    ensures !Killed(Of(ss[n], d))
  {
    if n > 0 {
      ActiveFlowsSurvive(ss, acts, clock, up, down, n - 1, d);
      if Killed(Of(ss[n], d)) {
        HowKilled(ss[n - 1], acts[n - 1], d);
        var m, l := KillHasAnInstant(ss, acts, clock, up, down, n - 1, d);
        StartInv(clock, up, down);
        RunKeepsInv(ss, acts, Start(clock, up, down), l);
        CondemnedIffInactive(ss[l]);
        assert false;
      }
    }
  }

  /** Once the flow is condemned, every judgement begun later condemns it too, unless a stamp was stored in between. */
  lemma ExpiredStaysExpired(
      ss: seq<State>, acts: seq<Action>, clock: int, up: seq<byte>, down: seq<byte>, a: nat, n: nat, d: Dir)
    requires IsRun(ss, acts, Start(clock, up, down)) && a <= n < |acts|
    requires Condemned(ss[a]) && !Judging(Of(ss[a], d).pc)
    requires ss[n].tx.stamps == ss[a].tx.stamps && ss[n].rx.stamps == ss[a].rx.stamps
    requires acts[n] == Move(d, Go) && Of(ss[n], d).pc.LoadingRx?
    ensures Of(ss[n + 1], d).pc.ShuttingDown? && Killed(Of(ss[n + 1], d))
  {
    var m, l := VerdictReads(ss, acts, clock, up, down, n, d);
    assert a <= m;
    StampsGrow(ss, acts, Start(clock, up, down), a, m);
    StampsGrow(ss, acts, Start(clock, up, down), m, l);
    StampsGrow(ss, acts, Start(clock, up, down), l, n);
    assert ss[l].tx.stamps == ss[a].tx.stamps;
    CondemnationLasts(Last(ss[a].tx.stamps), Last(ss[a].rx.stamps), Millis(ss[a].clock), Last(ss[a].rx.stamps),
                      Millis(ss[m].clock));
  }
}
