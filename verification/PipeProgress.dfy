/**
 * The bound on dead flows is reached: no instant lasts for ever, and from every timely state some prompt run returns.
 */
module PipeProgress {
  import opened Bytes
  import opened PipePair
  import opened PipeSafety
  import opened PipeTiming

  // ---------- an instant is finite ----------

  /** How far a pipe is from waiting or being done, if it reads nothing more. */
  function Rank(pc: PC, clock: int): nat {
    match pc
    case Sampling(_, _) => 18
    case Stamping(_, _, _) => 17
    case ArmingWrite(_, _) => 16
    case Writing(_, _, _) => 15
    case Reading(deadline) => if deadline <= clock then 14 else 8
    case Handling(err) => if err == Timeout then 13 else 7
    case SamplingNow => 12
    case LoadingTx(_) => 11
    case LoadingRx(_, _) => 10
    case GetBuffer => 10
    case Arming => 9
    case HalfClosing => 6
    case ShuttingDown => 5
    case ClosingApp => 4
    case ClosingProxy => 3
    case PuttingBuffer => 2
    case Leaving => 1
    case Finished => 0
  }

  /** Every octet still to come is worth more than any rank a read can raise a pipe by. */
  function PipeWork(p: Pipe, clock: int): int {
    20 * (|p.input| - |p.got|) + Rank(p.pc, clock)
  }

  function MainRank(m: MainPC): nat {
    match m
    case Waiting => 4
    case MainShutting => 3
    case MainClosingApp => 2
    case MainClosingProxy => 1
    case Returned => 0
  }

  function Work(s: State): int {
    PipeWork(s.tx, s.clock) + PipeWork(s.rx, s.clock) + MainRank(s.main)
  }

  lemma WorkIsBounded(s: State)
    requires Inv(s)
    ensures Work(s) >= 0
  {
  }

  lemma PipeStepWorks(p: Pipe, v: View, ch: Choice)
    requires CanStep(p, v, ch)
    ensures PipeWork(StepPipe(p, v, ch), v.clock) < PipeWork(p, v.clock)
  {
  }

  /** A step of the program itself, as against the clock and outside closes. */
  predicate OwnStep(a: Action) {
    a.Move? || a.MainMove?
  }

  lemma MainStepWorks(s: State)
    requires Enabled(s, MainMove)
    ensures Work(Do(s, MainMove)) < Work(s)
  {
  }

  lemma PairWorks(s: State, t: State, d: Dir)
    requires t.clock == s.clock && t.main == s.main && Of(t, Other(d)) == Of(s, Other(d))
    requires PipeWork(Of(t, d), s.clock) < PipeWork(Of(s, d), s.clock)
    ensures Work(t) < Work(s)
  {
  }

  lemma MoveWorks(s: State, d: Dir, ch: Choice)
    requires Enabled(s, Move(d, ch))
    ensures Work(Do(s, Move(d, ch))) < Work(s) && Do(s, Move(d, ch)).clock == s.clock
  {
    PipeStepWorks(Of(s, d), ViewOf(s, d), ch);
    MoveFrame(s, d, ch);
    PairWorks(s, Do(s, Move(d, ch)), d);
  }

  lemma StepWorks(s: State, a: Action)
    requires Enabled(s, a) && OwnStep(a)
    ensures Work(Do(s, a)) < Work(s) && Do(s, a).clock == s.clock
  {
    if a.Move? {
      MoveWorks(s, a.d, a.ch);
    } else {
      MainStepWorks(s);
    }
  }

  /** Without the clock moving the program takes only so many steps, however its reads and writes turn out. */
  lemma {:induction false} InstantsAreFinite(ss: seq<State>, acts: seq<Action>, start: State)
    requires IsRun(ss, acts, start) && Inv(start) && forall i :: 0 <= i < |acts| ==> OwnStep(acts[i])
    ensures |acts| + Work(ss[|acts|]) <= Work(start) && |acts| <= Work(start)
  {
    var n := |acts|;
    RunKeepsInv(ss, acts, start, n);
    WorkIsBounded(ss[n]);
    if n > 0 {
      InstantsAreFinite(ss[..n], acts[..n - 1], start);
      StepWorks(ss[n - 1], acts[n - 1]);
    }
  }

  // ---------- from every timely state some prompt run returns ----------

  function Samplers(s: State): nat {
    Bit(s.tx.pc.Sampling?) + Bit(s.rx.pc.Sampling?)
  }

  /** The time left before the bound. */
  function Slack(s: State): nat {
    Max(0, Activity(s) + BOUND_NS - s.clock)
  }

  /** Owed steps of a pipe read nothing, so a new stamp needs a pipe that was about to sample one. */
  lemma OwedPipeStep(s: State, d: Dir, ch: Choice)
    requires Enabled(s, Move(d, ch)) && Owed(s, Move(d, ch))
    ensures var p, q := Of(s, d), StepPipe(Of(s, d), ViewOf(s, d), ch);
            !q.pc.Sampling? && (!p.pc.Sampling? ==> q.touched == p.touched)
  {
  }

  lemma MoveAdvances(s: State, d: Dir, ch: Choice)
    requires Enabled(s, Move(d, ch)) && Owed(s, Move(d, ch))
    ensures var t := Do(s, Move(d, ch));
            Samplers(t) < Samplers(s) || (Samplers(t) == Samplers(s) && Activity(t) == Activity(s))
  {
    OwedPipeStep(s, d, ch);
    MoveFrame(s, d, ch);
  }

  lemma OthersAdvance(s: State, a: Action)
    requires Enabled(s, a) && !a.Move?
    ensures Samplers(Do(s, a)) == Samplers(s) && Activity(Do(s, a)) == Activity(s)
    ensures a.Tick? ==> Do(s, a).clock == a.to && Do(s, a).main == s.main
  {
  }

  /** An owed, prompt step gets nearer: fewer stamps to come, or less time left, or less work. */
  lemma OwedStepAdvances(s: State, a: Action)
    requires Inv(s) && OnTime(s) && s.main != Returned
    requires Enabled(s, a) && Prompt(s, a) && Owed(s, a)
    ensures var t := Do(s, a);
            || Samplers(t) < Samplers(s)
            || (Samplers(t) == Samplers(s) && Slack(t) < Slack(s))
            || (Samplers(t) == Samplers(s) && Slack(t) == Slack(s) && Work(t) < Work(s))
  {
    if a.Tick? {
      OthersAreOnTime(s, a);
      OthersAdvance(s, a);
    } else {
      StepWorks(s, a);
      if a.Move? {
        MoveAdvances(s, a.d, a.ch);
      } else {
        OthersAdvance(s, a);
      }
    }
  }

  ghost predicate PromptRun(ss: seq<State>, acts: seq<Action>, start: State) {
    IsRun(ss, acts, start) && forall i :: 0 <= i < |acts| ==> Prompt(ss[i], acts[i])
  }

  lemma PromptRunFrom(ss: seq<State>, acts: seq<Action>, start: State, a: Action)
    requires Enabled(start, a) && Prompt(start, a) && PromptRun(ss, acts, Do(start, a))
    ensures PromptRun([start] + ss, [a] + acts, start)
  {
    var ts, bs := [start] + ss, [a] + acts;
    forall i | 0 <= i < |bs|
      ensures Enabled(ts[i], bs[i]) && ts[i + 1] == Do(ts[i], bs[i]) && Prompt(ts[i], bs[i])
    {
      if i > 0 {
        assert ts[i] == ss[i - 1] && bs[i] == acts[i - 1] && ts[i + 1] == ss[i - 1 + 1];
      }
    }
  }

  /**
   * From every state the invariants allow, some prompt run in which nothing more is read ends with pipeConnections
   * returning.
   */
  lemma {:induction false} SomePromptRunReturns(s: State) returns (ss: seq<State>, acts: seq<Action>)
    requires Inv(s) && OnTime(s)
    ensures PromptRun(ss, acts, s) && ss[|acts|].main == Returned
    decreases Samplers(s), Slack(s), Work(s)
  {
    if s.main == Returned {
      ss, acts := [s], [];
    } else {
      WorkIsBounded(s);
      var a := TimeIsNeverStuck(s);
      OwedStepAdvances(s, a);
      PipeSafety.StepKeepsInv(s, a);
      StepKeepsOnTime(s, a);
      var rest, later := SomePromptRunReturns(Do(s, a));
      PromptRunFrom(rest, later, s, a);
      ss, acts := [s] + rest, [a] + later;
    }
  }
}
