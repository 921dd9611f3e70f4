/**
 * A dead flow ends in bounded time, provided runnable steps are taken before the clock moves and deadlines are
 * honoured.
 */
module PipeTiming {
  import opened Bytes
  import opened IdleVerdict
  import opened PipePair
  import opened PipeSafety

  const BOUND_NS := IDLE_NS + CHECK_STEP_NS

  /** The latest moment either direction sampled a stamp. */
  function Activity(s: State): int {
    Max(s.tx.touched, s.rx.touched)
  }

  /** A pipe that may let the clock reach `to`: blocked on an open end before its deadline, or done. */
  predicate MayWait(p: Pipe, v: View, to: int) {
    match p.pc
    case Reading(deadline) => to <= deadline && !v.srcClosed
    case Writing(_, _, deadline) => to <= deadline && !v.dstClosed
    case Finished => true
    case _ => false
  }

  /** The clock moves only when both pipes are blocked and the waiting goroutine has nothing to do. */
  predicate Prompt(s: State, a: Action) {
    a.Tick? ==>
      && MayWait(s.tx, ViewOf(s, Tx), a.to) && MayWait(s.rx, ViewOf(s, Rx), a.to)
      && (s.main == Returned || (s.main == Waiting && !(s.tx.pc.Finished? && s.rx.pc.Finished?)))
  }

  /** Where a pipe can be this long after the last activity. */
  predicate Punctual(p: Pipe, clock: int, activity: int) {
    && p.stamps != [] && Last(p.stamps) * MS <= p.touched <= activity <= clock
    && match p.pc
       case GetBuffer => clock <= activity + IDLE_NS
       case Arming => clock <= activity + IDLE_NS
       case Reading(deadline) => clock <= deadline <= activity + BOUND_NS
       case Stamping(_, _, ms) => ms * MS <= p.touched == clock
       case ArmingWrite(_, _) => clock == p.touched
       case Writing(_, _, deadline) => clock <= deadline == p.touched + IDLE_NS
       case LoadingTx(now) => now == Millis(clock)
       case LoadingRx(now, tx) => now == Millis(clock) && tx * MS <= activity
       case _ => true
  }

  predicate OnTime(s: State) {
    && Punctual(s.tx, s.clock, Activity(s)) && Punctual(s.rx, s.clock, Activity(s))
    && (s.main != Returned ==> s.clock <= Activity(s) + BOUND_NS)
  }

  lemma MillisRoundDown(ns: int)
    ensures Millis(ns) * MS <= ns
  {
  }

  /** Activity elsewhere only gives a pipe more time. */
  lemma LaterActivity(p: Pipe, clock: int, activity: int, later: int)
    requires Punctual(p, clock, activity) && activity <= later <= clock
    ensures Punctual(p, clock, later)
  {
  }

  /** The view's stamps are no later than the last activity. */
  predicate Timely(p: Pipe, v: View, activity: int) {
    && Punctual(p, v.clock, activity)
    && (v.tx != [] ==> Last(v.tx) * MS <= activity)
    && (v.rx != [] ==> Last(v.rx) * MS <= activity)
  }

  predicate CopyStep(pc: PC) {
    pc.Reading? || pc.Sampling? || pc.Stamping? || pc.ArmingWrite? || pc.Writing?
  }

  lemma CopyStepIsPunctual(p: Pipe, v: View, ch: Choice, activity: int)
    requires Timely(p, v, activity) && CanStep(p, v, ch) && CopyStep(p.pc)
    ensures var q := StepPipe(p, v, ch);
            p.touched <= q.touched <= v.clock && Punctual(q, v.clock, Max(q.touched, activity))
  {
    MillisRoundDown(v.clock);
  }

  lemma JudgeStepIsPunctual(p: Pipe, v: View, ch: Choice, activity: int)
    requires Timely(p, v, activity) && CanStep(p, v, ch) && p.pc.LoadingRx?
    ensures var q := StepPipe(p, v, ch);
            p.touched <= q.touched <= v.clock && Punctual(q, v.clock, Max(q.touched, activity))
  {
    if Judge(p.pc.tx, Last(v.rx), p.pc.now) == Keep {
      KeptMeansRecent(p.pc.tx, Last(v.rx), v.clock);
    }
  }

  lemma StepIsPunctual(p: Pipe, v: View, ch: Choice, activity: int)
    requires Timely(p, v, activity) && CanStep(p, v, ch)
    ensures var q := StepPipe(p, v, ch);
            p.touched <= q.touched <= v.clock && Punctual(q, v.clock, Max(q.touched, activity))
  {
    if CopyStep(p.pc) {
      CopyStepIsPunctual(p, v, ch, activity);
    } else if p.pc.LoadingRx? {
      JudgeStepIsPunctual(p, v, ch, activity);
    }
  }

  lemma MoveFrame(s: State, d: Dir, ch: Choice)
    requires Enabled(s, Move(d, ch))
    ensures var t := Do(s, Move(d, ch));
            t.clock == s.clock && t.main == s.main && Of(t, Other(d)) == Of(s, Other(d)) &&
            Of(t, d) == StepPipe(Of(s, d), ViewOf(s, d), ch)
  {
  }

  lemma PairOnTime(s: State, t: State, d: Dir)
    requires OnTime(s) && t.clock == s.clock && t.main == s.main && Of(t, Other(d)) == Of(s, Other(d))
    requires Of(s, d).touched <= Of(t, d).touched <= t.clock
    requires Punctual(Of(t, d), t.clock, Max(Of(t, d).touched, Activity(s)))
    ensures OnTime(t)
  {
    LaterActivity(Of(s, Other(d)), s.clock, Activity(s), Activity(t));
  }

  lemma MoveIsOnTime(s: State, d: Dir, ch: Choice)
    requires OnTime(s) && Enabled(s, Move(d, ch))
    ensures OnTime(Do(s, Move(d, ch)))
  {
    var v := ViewOf(s, d);
    StepIsPunctual(Of(s, d), v, ch, Activity(s));
    MoveFrame(s, d, ch);
    PairOnTime(s, Do(s, Move(d, ch)), d);
  }

  lemma OthersAreOnTime(s: State, a: Action)
    requires OnTime(s) && Enabled(s, a) && Prompt(s, a) && !a.Move?
    ensures OnTime(Do(s, a))
  {
  }

  lemma StepKeepsOnTime(s: State, a: Action)
    requires OnTime(s) && Enabled(s, a) && Prompt(s, a)
    ensures OnTime(Do(s, a))
  {
    if a.Move? {
      MoveIsOnTime(s, a.d, a.ch);
    } else {
      OthersAreOnTime(s, a);
    }
  }

  lemma {:induction false} PromptRunIsOnTime(
      ss: seq<State>, acts: seq<Action>, clock: int, up: seq<byte>, down: seq<byte>, n: nat)
    requires IsRun(ss, acts, Start(clock, up, down)) && n < |ss|
    requires forall i :: 0 <= i < |acts| ==> Prompt(ss[i], acts[i])
    ensures OnTime(ss[n])
  {
    if n == 0 {
      MillisRoundDown(clock);
    } else {
      PromptRunIsOnTime(ss, acts, clock, up, down, n - 1);
      StepKeepsOnTime(ss[n - 1], acts[n - 1]);
    }
  }

  /**
   * If nothing was stamped after time t, then once the clock is past t + 5 min + 30 s pipeConnections has returned:
   * both pipes are done and both ends closed.
   */
  lemma DeadFlowsEnd(ss: seq<State>, acts: seq<Action>, clock: int, up: seq<byte>, down: seq<byte>, n: nat, t: int)
    requires IsRun(ss, acts, Start(clock, up, down)) && n < |ss|
    requires forall i :: 0 <= i < |acts| ==> Prompt(ss[i], acts[i])
    requires Activity(ss[n]) <= t && ss[n].clock > t + 330_000_000_000
    ensures ss[n].main == Returned && ss[n].tx.pc.Finished? && ss[n].rx.pc.Finished?
    ensures ss[n].appClosed && ss[n].proxyClosed
  {
    PromptRunIsOnTime(ss, acts, clock, up, down, n);
    TornDownOnce(ss, acts, clock, up, down, n);
  }

  // ---------- time is never stuck ----------

  /**
   * A step the program itself owes: not the environment breaking something, and a read only when its deadline is due
   * or its end is closed.
   */
  predicate Owed(s: State, a: Action) {
    match a
    case Tick(to) => to > s.clock
    case ForceClose => false
    case MainMove => true
    case Move(d, ch) =>
      match Of(s, d).pc
      case Reading(deadline) => ch == ReadReturns(0, if ViewOf(s, d).srcClosed then Broken else Timeout)
      case _ => true
  }

  /** What pipe d would do next, and how its blocked calls end when nobody interferes. */
  function NextMove(s: State, d: Dir): Action {
    match Of(s, d).pc
    case Reading(_) => Move(d, ReadReturns(0, if ViewOf(s, d).srcClosed then Broken else Timeout))
    case Writing(data, _, _) =>
      Move(d, if ViewOf(s, d).dstClosed then WriteReturns(0, false) else WriteReturns(|data|, true))
    case HalfClosing => Move(d, CloseWriteReturns(!ViewOf(s, d).dstClosed))
    case _ => Move(d, Go)
  }

  /** A pipe can move unless it waits for its deadline, waits for the other's shutdown, or is done. */
  lemma PipeCanMove(s: State, d: Dir)
    requires Inv(s) && !Of(s, d).pc.Finished? && !(Of(s, d).pc.ShuttingDown? && s.once == Busy)
    requires Of(s, d).pc.Reading? ==> ViewOf(s, d).srcClosed || Of(s, d).pc.deadline <= s.clock
    ensures Enabled(s, NextMove(s, d)) && Owed(s, NextMove(s, d))
  {
  }

  /** A pipe blocked on a read that is not due yet. */
  predicate Resting(s: State, d: Dir) {
    Of(s, d).pc.Reading? && !ViewOf(s, d).srcClosed && s.clock < Of(s, d).pc.deadline
  }

  lemma RestUntil(s: State, to: int)
    requires s.main == Waiting && s.clock < to
    requires Resting(s, Tx) || Resting(s, Rx)
    requires (Resting(s, Tx) && to <= s.tx.pc.deadline) || s.tx.pc.Finished?
    requires (Resting(s, Rx) && to <= s.rx.pc.deadline) || s.rx.pc.Finished?
    ensures Enabled(s, Tick(to)) && Prompt(s, Tick(to)) && Owed(s, Tick(to))
  {
  }

  /** Until pipeConnections returns there is always an owed step that is prompt, or a moment to wait for. */
  lemma TimeIsNeverStuck(s: State) returns (a: Action)
    requires Inv(s) && s.main != Returned
    ensures Enabled(s, a) && Prompt(s, a) && Owed(s, a)
  {
    if s.once == Busy {
      a := CloserMoves(s);
    } else if !s.tx.pc.Finished? && !Resting(s, Tx) {
      a := NextMove(s, Tx);
      PipeCanMove(s, Tx);
    } else if !s.rx.pc.Finished? && !Resting(s, Rx) {
      a := NextMove(s, Rx);
      PipeCanMove(s, Rx);
    } else if s.tx.pc.Finished? && s.rx.pc.Finished? {
      a := MainMove;
    } else {
      var to := if s.tx.pc.Finished? then s.rx.pc.deadline
                else if s.rx.pc.Finished? || s.tx.pc.deadline < s.rx.pc.deadline then s.tx.pc.deadline
                else s.rx.pc.deadline;
      RestUntil(s, to);
      a := Tick(to);
    }
  }

  lemma CloserMoves(s: State) returns (a: Action)
    requires OnceAgrees(s) && s.once == Busy
    ensures Enabled(s, a) && Prompt(s, a) && Owed(s, a)
  {
    a := if s.tx.pc.ClosingApp? || s.tx.pc.ClosingProxy? then Move(Tx, Go)
         else if s.rx.pc.ClosingApp? || s.rx.pc.ClosingProxy? then Move(Rx, Go)
         else MainMove;
  }
}
