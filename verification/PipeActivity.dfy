/** Activity as the two ends see it: octets that are read count, and nothing else does. */
module PipeActivity {
  import opened Bytes
  import opened IdleVerdict
  import opened PipePair
  import opened PipeSafety
  import opened PipeVerdicts
  import opened PipeTiming
  import opened PipeProgress

  /** Pipe d reads at least one octet. */
  predicate OctetsRead(a: Action, d: Dir) {
    a.Move? && a.d == d && a.ch.ReadReturns? && a.ch.n > 0
  }

  // ---------- octets read are stamped ----------

  /** Between the sampling of the clock and its store the stamp is on its way; otherwise the last one is current. */
  predicate StampCurrent(p: Pipe) {
    p.stamps != [] && Millis(p.touched) == if p.pc.Stamping? then p.pc.ms else Last(p.stamps)
  }

  lemma StepKeepsStampCurrent(p: Pipe, v: View, ch: Choice)
    requires StampCurrent(p) && CanStep(p, v, ch)
    ensures StampCurrent(StepPipe(p, v, ch))
  {
  }

  lemma RunStepStampCurrent(s: State, a: Action, d: Dir)
    requires Enabled(s, a) && StampCurrent(Of(s, d))
    ensures StampCurrent(Of(Do(s, a), d))
  {
    if a.Move? && a.d == d {
      StepKeepsStampCurrent(Of(s, d), ViewOf(s, d), a.ch);
      MoveFrame(s, d, a.ch);
    } else {
      OtherPipeWaits(s, a, d);
    }
  }

  lemma {:induction false} StampsAreCurrent(ss: seq<State>, acts: seq<Action>, start: State, j: nat, d: Dir)
    requires IsRun(ss, acts, start) && j < |ss| && StampCurrent(Of(start, d))
    ensures StampCurrent(Of(ss[j], d))
  {
    if j > 0 {
      StampsAreCurrent(ss, acts, start, j - 1, d);
      RunStepStampCurrent(ss[j - 1], acts[j - 1], d);
    }
  }

  /**
   * A step of pipe d that reads octets leaves it about to sample; one that samples takes the clock; no other matters.
   */
  lemma TouchingStep(s: State, a: Action, d: Dir)
    requires Enabled(s, a)
    ensures var p, q := Of(s, d), Of(Do(s, a), d);
            && (OctetsRead(a, d) ==> q.pc.Sampling? && q.touched == p.touched)
            && (q.pc.Sampling? && !p.pc.Sampling? ==> OctetsRead(a, d))
            && (p.pc.Sampling? && !q.pc.Sampling? ==> q.touched == s.clock)
            && (!p.pc.Sampling? || q.pc.Sampling? ==> q.touched == p.touched)
            && (p.pc.Sampling? && !q.pc.Sampling? ==> q.pc.Stamping?)
  {
    if a.Move? && a.d == d {
      MoveFrame(s, d, a.ch);
    } else {
      OtherPipeWaits(s, a, d);
    }
  }

  /** How the touched time of a pipe changes from one state to the next. */
  predicate TouchKept(s: State, t: State, d: Dir) {
    var p, q := Of(s, d), Of(t, d);
    if p.pc.Sampling? && !q.pc.Sampling? then q.touched == s.clock else q.touched == p.touched
  }

  lemma RunTouch(ss: seq<State>, acts: seq<Action>, start: State, i: nat, d: Dir)
    requires IsRun(ss, acts, start) && i < |acts|
    ensures TouchKept(ss[i], ss[i + 1], d)
    ensures OctetsRead(acts[i], d) ==> Of(ss[i + 1], d).pc.Sampling?
  {
    TouchingStep(ss[i], acts[i], d);
  }

  /** Pipe d is about to sample the clock, or has done so no earlier than since. */
  predicate SampledSince(s: State, d: Dir, since: int) {
    Of(s, d).pc.Sampling? || Of(s, d).touched >= since
  }

  /** What a run does between state i and its successor, as far as touched times and the clock go. */
  predicate TouchedAt(ss: seq<State>, d: Dir, i: nat) {
    i + 1 < |ss| ==> TouchKept(ss[i], ss[i + 1], d) && ss[i].clock <= ss[i + 1].clock
  }

  lemma {:induction false} SinceLasts(ss: seq<State>, d: Dir, since: int, i: nat, j: nat)
    requires i <= j < |ss| && SampledSince(ss[i], d, since) && ss[i].clock >= since
    requires forall x: nat :: TouchedAt(ss, d, x)
    ensures SampledSince(ss[j], d, since) && ss[j].clock >= since
    decreases j - i
  {
    if i < j {
      SinceLasts(ss, d, since, i, j - 1);
      assert TouchedAt(ss, d, j - 1);
    }
  }

  /** After octets are read in state m, the pipe is about to sample, or has sampled the clock since. */
  lemma ReadsAreSampled(ss: seq<State>, acts: seq<Action>, start: State, d: Dir, m: nat, j: nat)
    requires IsRun(ss, acts, start) && m < j < |ss| && OctetsRead(acts[m], d)
    ensures SampledSince(ss[j], d, ss[m].clock)
  {
    forall x: nat ensures TouchedAt(ss, d, x) {
      if x < |acts| {
        RunTouch(ss, acts, start, x, d);
        StampsGrow(ss, acts, start, x, x + 1);
      }
    }
    RunTouch(ss, acts, start, m, d);
    assert TouchedAt(ss, d, m);
    SinceLasts(ss, d, ss[m].clock, m + 1, j);
  }

  predicate StampDue(pc: PC) {
    pc.Sampling? || pc.Stamping?
  }

  /** Octets that pipe d read in state m, and whose stamp it had stored by state j. */
  ghost predicate Stored(ss: seq<State>, acts: seq<Action>, d: Dir, m: nat, j: nat) {
    && m < |acts| && m < j < |ss| && OctetsRead(acts[m], d)
    && exists i :: m < i <= j && !StampDue(Of(ss[i], d).pc)
  }

  lemma StampCurrentAtStart(clock: int, up: seq<byte>, down: seq<byte>, d: Dir)
    ensures StampCurrent(Of(Start(clock, up, down), d))
  {
  }

  /** A pipe that has read octets and got past storing its stamp shows the other one a stamp no older than that read. */
  lemma ReadsAreStamped(
      ss: seq<State>, acts: seq<Action>, clock: int, up: seq<byte>, down: seq<byte>, d: Dir, m: nat, j: nat)
    requires IsRun(ss, acts, Start(clock, up, down)) && Stored(ss, acts, d, m, j)
    ensures Of(ss[j], d).stamps != [] && Last(Of(ss[j], d).stamps) >= Millis(ss[m].clock)
  {
    var start := Start(clock, up, down);
    var i :| m < i <= j && !StampDue(Of(ss[i], d).pc);
    StampCurrentAtStart(clock, up, down, d);
    StampsAreCurrent(ss, acts, start, i, d);
    ReadsAreSampled(ss, acts, start, d, m, i);
    MillisKeepsOrder(ss[m].clock, Of(ss[i], d).touched);
    StampsGrow(ss, acts, start, i, j);
    StartInv(clock, up, down);
    RunKeepsInv(ss, acts, start, j);
    LastIsLatest(Of(ss[i], d).stamps, Of(ss[j], d).stamps);
  }

  lemma MillisKeepsOrder(a: int, b: int)
    requires a <= b
    ensures Millis(a) <= Millis(b)
  {
  }

  // ---------- a flow that reads octets is never killed ----------

  /** How long ago state m was, on the millisecond clock of state j. */
  function Age(ss: seq<State>, m: nat, j: nat): int
    requires m < |ss| && j < |ss|
  {
    Millis(ss[j].clock) - Millis(ss[m].clock)
  }

  /** No octets of the app were read, and none were waiting to be stamped, from state m to state j. */
  ghost predicate NoRequestSince(ss: seq<State>, acts: seq<Action>, m: nat, j: nat)
    requires m <= j < |ss| && j <= |acts|
  {
    !StampDue(ss[m].tx.pc) && forall i :: m <= i < j ==> !OctetsRead(acts[i], Tx)
  }

  /** Octets read and stamped in the last 2 minutes, or in the last 5 by the proxy's side with no request since. */
  ghost predicate RecentOctets(ss: seq<State>, acts: seq<Action>, j: nat)
    requires j < |ss| && j <= |acts|
  {
    || Age(ss, 0, j) < 120_000
    || (exists d, m: nat :: Stored(ss, acts, d, m, j) && Age(ss, m, j) < 120_000)
    || (exists m: nat :: Stored(ss, acts, Rx, m, j) && Age(ss, m, j) < 300_000 && NoRequestSince(ss, acts, m, j))
  }

  lemma RecentStampIsActivity(s: State, d: Dir)
    requires StampedBy(s.tx, s.clock) && StampedBy(s.rx, s.clock)
    requires Millis(s.clock) - Last(Of(s, d).stamps) < 120_000
    ensures RecentlyActive(s)
  {
    SilentByLast(Of(s, d).stamps, Millis(s.clock), 120_000);
  }

  lemma AnsweredStampIsActivity(s: State)
    requires StampedBy(s.tx, s.clock) && StampedBy(s.rx, s.clock)
    requires Millis(s.clock) - Last(s.rx.stamps) < 300_000 && Last(s.tx.stamps) <= Last(s.rx.stamps)
    ensures RecentlyActive(s)
  {
    SilentByLast(s.rx.stamps, Millis(s.clock), 300_000);
  }

  lemma QuietStep(s: State, a: Action)
    requires Enabled(s, a) && !StampDue(s.tx.pc) && !OctetsRead(a, Tx)
    ensures !StampDue(Do(s, a).tx.pc) && Do(s, a).tx.stamps == s.tx.stamps
  {
    if a.Move? && a.d == Tx {
      MoveFrame(s, Tx, a.ch);
    } else {
      OtherPipeWaits(s, a, Tx);
    }
  }

  lemma {:induction false} QuietAppKeepsStamps(ss: seq<State>, acts: seq<Action>, start: State, m: nat, j: nat)
    requires IsRun(ss, acts, start) && m <= j < |ss| && NoRequestSince(ss, acts, m, j)
    ensures !StampDue(ss[j].tx.pc) && ss[j].tx.stamps == ss[m].tx.stamps
    decreases j - m
  {
    if m < j {
      QuietAppKeepsStamps(ss, acts, start, m, j - 1);
      QuietStep(ss[j - 1], acts[j - 1]);
    }
  }

  lemma NewFlowIsActive(ss: seq<State>, acts: seq<Action>, clock: int, up: seq<byte>, down: seq<byte>, j: nat)
    requires IsRun(ss, acts, Start(clock, up, down)) && j < |ss| && Age(ss, 0, j) < 120_000
    ensures RecentlyActive(ss[j])
  {
    StartInv(clock, up, down);
    RunKeepsInv(ss, acts, Start(clock, up, down), j);
    StampsGrow(ss, acts, Start(clock, up, down), 0, j);
    LastIsLatest(ss[0].tx.stamps, ss[j].tx.stamps);
    RecentStampIsActivity(ss[j], Tx);
  }

  lemma StoredOctetsAreActivity(
      ss: seq<State>, acts: seq<Action>, clock: int, up: seq<byte>, down: seq<byte>, d: Dir, m: nat, j: nat)
    requires IsRun(ss, acts, Start(clock, up, down)) && Stored(ss, acts, d, m, j) && Age(ss, m, j) < 120_000
    ensures RecentlyActive(ss[j])
  {
    StartInv(clock, up, down);
    RunKeepsInv(ss, acts, Start(clock, up, down), j);
    ReadsAreStamped(ss, acts, clock, up, down, d, m, j);
    RecentStampIsActivity(ss[j], d);
  }

  lemma AnsweredFlowIsActive(
      ss: seq<State>, acts: seq<Action>, clock: int, up: seq<byte>, down: seq<byte>, m: nat, j: nat)
    requires IsRun(ss, acts, Start(clock, up, down)) && Stored(ss, acts, Rx, m, j) && Age(ss, m, j) < 300_000
    requires j <= |acts| && NoRequestSince(ss, acts, m, j)
    ensures RecentlyActive(ss[j])
  {
    var start := Start(clock, up, down);
    StartInv(clock, up, down);
    RunKeepsInv(ss, acts, start, j);
    RunKeepsInv(ss, acts, start, m);
    ReadsAreStamped(ss, acts, clock, up, down, Rx, m, j);
    QuietAppKeepsStamps(ss, acts, start, m, j);
    MillisKeepsOrder(ss[m].tx.touched, ss[m].clock);
    AnsweredStampIsActivity(ss[j]);
  }

  lemma RecentOctetsAreActivity(
      ss: seq<State>, acts: seq<Action>, clock: int, up: seq<byte>, down: seq<byte>, j: nat)
    requires IsRun(ss, acts, Start(clock, up, down)) && j < |ss| && RecentOctets(ss, acts, j)
    ensures RecentlyActive(ss[j])
  {
    if Age(ss, 0, j) < 120_000 {
      NewFlowIsActive(ss, acts, clock, up, down, j);
    } else if exists d, m: nat :: Stored(ss, acts, d, m, j) && Age(ss, m, j) < 120_000 {
      var d, m: nat :| Stored(ss, acts, d, m, j) && Age(ss, m, j) < 120_000;
      StoredOctetsAreActivity(ss, acts, clock, up, down, d, m, j);
    } else {
      var m: nat :| Stored(ss, acts, Rx, m, j) && Age(ss, m, j) < 300_000 && NoRequestSince(ss, acts, m, j);
      AnsweredFlowIsActive(ss, acts, clock, up, down, m, j);
    }
  }

  /** A flow whose octets come at the required gaps in every state of a run is never closed by the idle verdict. */
  lemma ReadingFlowsSurvive(
      ss: seq<State>, acts: seq<Action>, clock: int, up: seq<byte>, down: seq<byte>, n: nat, d: Dir)
    requires IsRun(ss, acts, Start(clock, up, down)) && n < |ss|
    requires forall j :: 0 <= j < n ==> RecentOctets(ss, acts, j)
    ensures !Killed(Of(ss[n], d))
  {
    forall j | 0 <= j < n ensures RecentlyActive(ss[j]) {
      RecentOctetsAreActivity(ss, acts, clock, up, down, j);
    }
    ActiveFlowsSurvive(ss, acts, clock, up, down, n, d);
  }

  // ---------- with prompt steps ----------

  lemma PromptWaits(ss: seq<State>, acts: seq<Action>, start: State, i: nat, d: Dir)
    requires PromptRun(ss, acts, start) && i < |acts| && StampDue(Of(ss[i], d).pc)
    ensures ss[i + 1].clock == ss[i].clock
  {
    if acts[i].Move? {
      MoveFrame(ss[i], acts[i].d, acts[i].ch);
    }
  }

  lemma ReadTakesNoTime(ss: seq<State>, acts: seq<Action>, start: State, m: nat, d: Dir)
    requires IsRun(ss, acts, start) && m < |acts| && OctetsRead(acts[m], d)
    ensures ss[m + 1].clock == ss[m].clock
  {
    MoveFrame(ss[m], d, acts[m].ch);
  }

  /** While a stamp is due no time passes, so a read is stored as soon as the clock moves. */
  lemma {:induction false} StoredAtOnce(
      ss: seq<State>, acts: seq<Action>, start: State, d: Dir, m: nat, j: nat)
    requires PromptRun(ss, acts, start) && m < j < |ss| && OctetsRead(acts[m], d)
    ensures Stored(ss, acts, d, m, j) || ss[j].clock == ss[m].clock
  {
    if m == j - 1 {
      ReadTakesNoTime(ss, acts, start, m, d);
    } else {
      StoredAtOnce(ss, acts, start, d, m, j - 1);
      if StampDue(Of(ss[j - 1], d).pc) {
        PromptWaits(ss, acts, start, j - 1, d);
      }
      StoredLater(ss, acts, d, m, j - 1, j);
    }
  }

  lemma StoredLater(ss: seq<State>, acts: seq<Action>, d: Dir, m: nat, i: nat, j: nat)
    requires i <= j < |ss| && m < |acts|
    ensures Stored(ss, acts, d, m, i) ==> Stored(ss, acts, d, m, j)
    ensures m < i && OctetsRead(acts[m], d) && !StampDue(Of(ss[i], d).pc) ==> Stored(ss, acts, d, m, j)
  {
    if Stored(ss, acts, d, m, i) {
      var x :| m < x <= i && !StampDue(Of(ss[x], d).pc);
      assert m < x <= j && !StampDue(Of(ss[x], d).pc);
    }
  }

  /** The flow is less than 2 minutes old, or one side read octets less than 2 minutes ago. */
  ghost predicate ReadLately(ss: seq<State>, acts: seq<Action>, j: nat)
    requires j < |ss| == |acts| + 1
  {
    || Age(ss, 0, j) < 120_000
    || exists d, m :: 0 <= m < j && OctetsRead(acts[m], d) && Age(ss, m, j) < 120_000
  }

  /** The same of reads that have been stamped. */
  ghost predicate StampedLately(ss: seq<State>, acts: seq<Action>, j: nat)
    requires j < |ss|
  {
    || Age(ss, 0, j) < 120_000
    || exists d, m: nat :: Stored(ss, acts, d, m, j) && Age(ss, m, j) < 120_000
  }

  lemma StampedLatelyStill(ss: seq<State>, acts: seq<Action>, m: nat, j: nat)
    requires m < j < |ss| == |acts| + 1 && ss[m].clock == ss[j].clock && StampedLately(ss, acts, m)
    ensures StampedLately(ss, acts, j)
  {
    if Age(ss, 0, m) >= 120_000 {
      var d, i: nat :| Stored(ss, acts, d, i, m) && Age(ss, i, m) < 120_000;
      StoredLater(ss, acts, d, i, m, j);
    }
  }

  /** If reads come at gaps below 2 minutes, so do stamped ones: a read not yet stamped is no older than now. */
  lemma {:induction false} PromptReadsAreStamped(ss: seq<State>, acts: seq<Action>, start: State, j: nat)
    requires PromptRun(ss, acts, start) && j < |ss| && forall i :: 0 <= i <= j ==> ReadLately(ss, acts, i)
    ensures StampedLately(ss, acts, j)
  {
    assert ReadLately(ss, acts, j);
    if Age(ss, 0, j) >= 120_000 {
      var d, m :| 0 <= m < j && OctetsRead(acts[m], d) && Age(ss, m, j) < 120_000;
      StoredAtOnce(ss, acts, start, d, m, j);
      if !Stored(ss, acts, d, m, j) {
        PromptReadsAreStamped(ss, acts, start, m);
        StampedLatelyStill(ss, acts, m, j);
      }
    }
  }

  /** A flow of which one side reads octets at gaps below 2 minutes is never closed by the idle verdict. */
  lemma BusyFlowsSurvive(
      ss: seq<State>, acts: seq<Action>, clock: int, up: seq<byte>, down: seq<byte>, n: nat, d: Dir)
    requires PromptRun(ss, acts, Start(clock, up, down)) && n < |ss|
    requires forall j :: 0 <= j < n ==> ReadLately(ss, acts, j)
    ensures !Killed(Of(ss[n], d))
  {
    forall j | 0 <= j < n ensures RecentOctets(ss, acts, j) {
      PromptReadsAreStamped(ss, acts, Start(clock, up, down), j);
    }
    ReadingFlowsSurvive(ss, acts, clock, up, down, n, d);
  }

  /** No octets are read after time t. */
  ghost predicate SilentAfter(ss: seq<State>, acts: seq<Action>, d: Dir, n: nat, t: int)
    requires n <= |acts| <= |ss|
  {
    forall m :: 0 <= m < n && OctetsRead(acts[m], d) ==> ss[m].clock <= t
  }

  lemma SamplingBegins(ss: seq<State>, acts: seq<Action>, start: State, i: nat, d: Dir)
    requires IsRun(ss, acts, start) && i < |acts|
    requires Of(ss[i + 1], d).pc.Sampling? && !Of(ss[i], d).pc.Sampling?
    ensures OctetsRead(acts[i], d)
  {
    TouchingStep(ss[i], acts[i], d);
  }

  lemma {:induction false} TouchedByReads(
      ss: seq<State>, acts: seq<Action>, start: State, d: Dir, n: nat, t: int)
    requires PromptRun(ss, acts, start) && n < |ss| && SilentAfter(ss, acts, d, n, t)
    requires Of(start, d).touched <= t && !Of(start, d).pc.Sampling?
    ensures Of(ss[n], d).touched <= t && (Of(ss[n], d).pc.Sampling? ==> ss[n].clock <= t)
  {
    if n > 0 {
      TouchedByReads(ss, acts, start, d, n - 1, t);
      RunTouch(ss, acts, start, n - 1, d);
      if Of(ss[n], d).pc.Sampling? {
        if Of(ss[n - 1], d).pc.Sampling? {
          PromptWaits(ss, acts, start, n - 1, d);
        } else {
          SamplingBegins(ss, acts, start, n - 1, d);
          ReadTakesNoTime(ss, acts, start, n - 1, d);
        }
      }
    }
  }

  /**
   * If neither side reads an octet after time t, then once the clock is 5 minutes and 30 seconds past t
   * pipeConnections has returned: both pipes are done and both ends closed.
   */
  lemma SilentFlowsEnd(
      ss: seq<State>, acts: seq<Action>, clock: int, up: seq<byte>, down: seq<byte>, n: nat, t: int)
    requires PromptRun(ss, acts, Start(clock, up, down)) && n < |ss| && clock <= t
    requires SilentAfter(ss, acts, Tx, n, t) && SilentAfter(ss, acts, Rx, n, t)
    requires ss[n].clock > t + 330_000_000_000
    ensures ss[n].main == Returned && ss[n].tx.pc.Finished? && ss[n].rx.pc.Finished?
    ensures ss[n].appClosed && ss[n].proxyClosed
  {
    TouchedByReads(ss, acts, Start(clock, up, down), Tx, n, t);
    TouchedByReads(ss, acts, Start(clock, up, down), Rx, n, t);
    DeadFlowsEnd(ss, acts, clock, up, down, n, t);
  }

  // ---------- deadlines ----------

  /** What is pending since a judgement began at time since: no timeout, and no further judgement, for 30 seconds. */
  predicate Spaced(p: Pipe, clock: int, since: int) {
    && since <= clock
    && (p.pc.Reading? ==> p.pc.deadline >= since + 30_000_000_000)
    && (PendingError(p.pc) == Timeout || p.pc.SamplingNow? ==> clock >= since + 30_000_000_000)
  }

  lemma StepKeepsSpaced(p: Pipe, v: View, ch: Choice, since: int)
    requires Spaced(p, v.clock, since) && CanStep(p, v, ch)
    ensures Spaced(StepPipe(p, v, ch), v.clock, since)
  {
  }

  lemma RunKeepsSpaced(ss: seq<State>, acts: seq<Action>, start: State, i: nat, d: Dir, since: int)
    requires IsRun(ss, acts, start) && i < |acts| && Spaced(Of(ss[i], d), ss[i].clock, since)
    ensures Spaced(Of(ss[i + 1], d), ss[i + 1].clock, since)
  {
    StepPrecedes(ss[i], acts[i]);
    if acts[i].Move? && acts[i].d == d {
      StepKeepsSpaced(Of(ss[i], d), ViewOf(ss[i], d), acts[i].ch, since);
      MoveFrame(ss[i], d, acts[i].ch);
    } else {
      OtherPipeWaits(ss[i], acts[i], d);
    }
  }

  lemma {:induction false} SpacedLasts(
      ss: seq<State>, acts: seq<Action>, start: State, i: nat, j: nat, d: Dir, since: int)
    requires IsRun(ss, acts, start) && i <= j < |ss| && Spaced(Of(ss[i], d), ss[i].clock, since)
    ensures Spaced(Of(ss[j], d), ss[j].clock, since)
    decreases j - i
  {
    if i < j {
      SpacedLasts(ss, acts, start, i, j - 1, d, since);
      RunKeepsSpaced(ss, acts, start, j - 1, d, since);
    }
  }

  lemma JudgementSpaces(s: State, d: Dir)
    requires Enabled(s, Move(d, Go)) && Of(s, d).pc.SamplingNow?
    ensures var t := Do(s, Move(d, Go)); Spaced(Of(t, d), t.clock, s.clock)
  {
    MoveFrame(s, d, Go);
  }

  /** A pipe looks at the idle verdict at most once in 30 seconds. */
  lemma JudgementsAreSpaced(ss: seq<State>, acts: seq<Action>, start: State, m: nat, n: nat, d: Dir)
    requires IsRun(ss, acts, start) && m < n < |acts| && acts[m] == acts[n] == Move(d, Go)
    requires Of(ss[m], d).pc.SamplingNow? && Of(ss[n], d).pc.SamplingNow?
    ensures ss[n].clock >= ss[m].clock + 30_000_000_000
  {
    JudgementSpaces(ss[m], d);
    SpacedLasts(ss, acts, start, m + 1, n, d, ss[m].clock);
  }

  lemma WriteDeadlineStep(p: Pipe, v: View, ch: Choice)
    requires CanStep(p, v, ch) && StepPipe(p, v, ch).pc.Writing?
    ensures p.pc.ArmingWrite? && StepPipe(p, v, ch).pc.deadline == v.clock + 300_000_000_000
  {
  }

  /** A write is given 5 minutes from when it is issued. */
  lemma {:induction false} WritesHaveFiveMinutes(ss: seq<State>, acts: seq<Action>, start: State, n: nat, d: Dir)
    returns (m: nat)
    requires IsRun(ss, acts, start) && n < |ss| && Of(ss[n], d).pc.Writing? && !Of(start, d).pc.Writing?
    ensures m < n && Of(ss[m], d).pc.ArmingWrite? && acts[m].Move? && acts[m].d == d
    ensures Of(ss[n], d).pc.deadline == ss[m].clock + 300_000_000_000
    ensures forall i :: m < i <= n ==> Of(ss[i], d).pc == Of(ss[n], d).pc
  {
    assert n > 0;
    if acts[n - 1].Move? && acts[n - 1].d == d {
      MoveFrame(ss[n - 1], d, acts[n - 1].ch);
      WriteDeadlineStep(Of(ss[n - 1], d), ViewOf(ss[n - 1], d), acts[n - 1].ch);
      m := n - 1;
    } else {
      OtherPipeWaits(ss[n - 1], acts[n - 1], d);
      m := WritesHaveFiveMinutes(ss, acts, start, n - 1, d);
    }
  }
}
