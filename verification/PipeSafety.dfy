/** What every interleaving of the pipe pair keeps: fidelity, half-close, one shutdown. */
module PipeSafety {
  import opened Bytes
  import opened IdleVerdict
  import opened PipePair

  // ---------- one pipe: the stream ----------

  function InFlight(pc: PC): seq<byte> {
    match pc
    case Sampling(data, _) => data
    case Stamping(data, _, _) => data
    case ArmingWrite(data, _) => data
    case Writing(data, _, _) => data
    case _ => []
  }

  function PendingError(pc: PC): ReadError {
    match pc
    case Sampling(_, err) => err
    case Stamping(_, err, _) => err
    case ArmingWrite(_, err) => err
    case Writing(_, err, _) => err
    case Handling(err) => err
    case HalfClosing => Eof
    case _ => NoError
  }

  /** The stages of a pipe, as far as the other actors care. */
  datatype Stage = Copying | Shutting | AtApp | AtProxy | Ending | Over

  function StageOf(pc: PC): Stage {
    match pc
    case ShuttingDown => Shutting
    case ClosingApp => AtApp
    case ClosingProxy => AtProxy
    case PuttingBuffer => Ending
    case Leaving => Ending
    case Finished => Over
    case _ => Copying
  }

  predicate Ended(p: Pipe) {
    (StageOf(p.pc) == Ending || StageOf(p.pc) == Over) && (p.fin || p.cause.Some?)
  }

  predicate Faithful(p: Pipe) {
    && p.got <= p.input && p.put <= p.got
    && (StageOf(p.pc) == Copying ==> p.got == p.put + InFlight(p.pc) && !p.fin && p.cause == None)
    && (p.end == Whole ==> p.got == p.input) && (p.end == CutShort ==> |p.got| < |p.input|)
    && (StageOf(p.pc) == Copying ==> (PendingError(p.pc) == Eof <==> p.end != Open))
    && (p.pc.Handling? ==> p.pc.err != NoError)
    && (p.fin ==> p.put == p.got && p.end != Open && p.cause == None)
    && (StageOf(p.pc) == Copying || Ended(p) || p.cause.Some?)
  }

  lemma ReadExtends(p: Pipe, n: nat)
    requires p.got <= p.input && |p.got| + n <= |p.input|
    ensures var got := p.got + p.input[|p.got|..|p.got| + n];
            got <= p.input && |got| == |p.got| + n && p.got <= got && (|got| == |p.input| ==> got == p.input)
  {
  }

  lemma ReadKeepsFaithful(p: Pipe, v: View, ch: Choice)
    requires Faithful(p) && p.pc.Reading? && CanStep(p, v, ch)
    ensures Faithful(StepPipe(p, v, ch))
  {
    ReadExtends(p, ch.n);
  }

  lemma WriteKeepsFaithful(p: Pipe, v: View, ch: Choice)
    requires Faithful(p) && p.pc.Writing? && CanStep(p, v, ch)
    ensures Faithful(StepPipe(p, v, ch))
  {
    assert p.pc.data[..ch.m] <= p.pc.data && (ch.m == |p.pc.data| ==> p.pc.data[..ch.m] == p.pc.data);
  }

  lemma StampKeepsFaithful(p: Pipe, v: View, ch: Choice)
    requires Faithful(p) && (p.pc.Sampling? || p.pc.Stamping? || p.pc.ArmingWrite?) && CanStep(p, v, ch)
    ensures Faithful(StepPipe(p, v, ch))
  {
  }

  lemma IdleStepKeepsFaithful(p: Pipe, v: View, ch: Choice)
    requires Faithful(p) && !p.pc.Reading? && !p.pc.Writing? && CanStep(p, v, ch)
    requires !p.pc.Sampling? && !p.pc.Stamping? && !p.pc.ArmingWrite?
    ensures Faithful(StepPipe(p, v, ch))
  {
    var q := StepPipe(p, v, ch);
    assert q.got == p.got && q.put == p.put && InFlight(p.pc) == [] == InFlight(q.pc);
  }

  lemma StepKeepsFaithful(p: Pipe, v: View, ch: Choice)
    requires Faithful(p) && CanStep(p, v, ch)
    ensures Faithful(StepPipe(p, v, ch))
  {
    if p.pc.Reading? {
      ReadKeepsFaithful(p, v, ch);
    } else if p.pc.Writing? {
      WriteKeepsFaithful(p, v, ch);
    } else if p.pc.Sampling? || p.pc.Stamping? || p.pc.ArmingWrite? {
      StampKeepsFaithful(p, v, ch);
    } else {
      IdleStepKeepsFaithful(p, v, ch);
    }
  }

  // ---------- one pipe: its stamps ----------

  predicate Nondecreasing(s: seq<int>) {
    forall i, j :: 0 <= i <= j < |s| ==> s[i] <= s[j]
  }

  predicate StampedBy(p: Pipe, clock: int) {
    && p.stamps != [] && Nondecreasing(p.stamps) && p.touched <= clock
    && Last(p.stamps) <= Millis(p.touched)
    && (p.pc.Stamping? ==> p.pc.ms == Millis(p.touched))
  }

  lemma StepKeepsStamped(p: Pipe, v: View, ch: Choice)
    requires StampedBy(p, v.clock) && CanStep(p, v, ch)
    ensures StampedBy(StepPipe(p, v, ch), v.clock) && p.stamps <= StepPipe(p, v, ch).stamps
  {
  }

  // ---------- the pair ----------

  /** How far the one run of shutdown has come, and that nobody else is in it. */
  predicate OnceAgrees(s: State) {
    var x, y, m := StageOf(s.tx.pc), StageOf(s.rx.pc), s.main;
    var closers := Bit(x == AtApp || x == AtProxy) + Bit(y == AtApp || y == AtProxy) +
                   Bit(m == MainClosingApp || m == MainClosingProxy);
    match s.once
    case Fresh => closers == 0 && s.appCloses == s.proxyCloses == 0
    case Ran => closers == 0 && s.appCloses == s.proxyCloses == 1 && s.appClosed && s.proxyClosed
    case Busy =>
      && closers == 1 && s.proxyCloses == 0
      && s.appCloses == Bit(x == AtProxy || y == AtProxy || m == MainClosingProxy)
      && (s.appCloses == 1 ==> s.appClosed)
  }

  predicate Failed(p: Pipe) {
    (StageOf(p.pc) == Ending || StageOf(p.pc) == Over) && p.cause.Some?
  }

  predicate MainAgrees(s: State) {
    && (s.main != Waiting ==> s.tx.pc.Finished? && s.rx.pc.Finished?)
    && (s.main == Returned ==> s.once == Ran)
    && (Failed(s.tx) || Failed(s.rx) ==> s.once == Ran)
  }

  /** Nothing is torn down without a fault, as long as the pair is running. */
  predicate FaultAgrees(s: State) {
    && (s.tx.cause.Some? || s.rx.cause.Some? ==> s.fault)
    && (PendingError(s.tx.pc) == Broken || PendingError(s.rx.pc) == Broken ==> s.fault)
    && (s.once != Fresh ==> s.fault || s.main != Waiting)
    && (s.appClosed ==> s.appCloses == 1 || s.fault)
    && (s.proxyClosed ==> s.proxyCloses == 1)
    && (s.tx.end == CutShort ==> s.fault && s.appClosed) && (s.rx.end == CutShort ==> s.fault && s.proxyClosed)
  }

  predicate Inv(s: State) {
    && Faithful(s.tx) && Faithful(s.rx)
    && StampedBy(s.tx, s.clock) && StampedBy(s.rx, s.clock)
    && OnceAgrees(s) && MainAgrees(s) && FaultAgrees(s)
  }

  /** A pipe's step as the others see it. */
  predicate StageStep(g: Stage, h: Stage, once: Once) {
    match g
    case Copying => h == Copying || h == Shutting || h == Ending
    case Shutting => once != Busy && h == if once == Fresh then AtApp else Ending
    case AtApp => h == AtProxy
    case AtProxy => h == Ending
    case Ending => h == Ending || h == Over
    case Over => false
  }

  predicate SharedStep(s: State, t: State, g: Stage) {
    && t.main == s.main
    && t.once == (if g == Shutting && s.once == Fresh then Busy else if g == AtProxy then Ran else s.once)
    && t.appCloses == s.appCloses + Bit(g == AtApp) && t.appClosed == (s.appClosed || g == AtApp)
    && t.proxyCloses == s.proxyCloses + Bit(g == AtProxy) && t.proxyClosed == (s.proxyClosed || g == AtProxy)
  }

  lemma StageOfStep(p: Pipe, v: View, ch: Choice)
    requires Faithful(p) && CanStep(p, v, ch)
    ensures var q := StepPipe(p, v, ch);
            StageStep(StageOf(p.pc), StageOf(q.pc), v.once) &&
            (q.cause == p.cause || (StageOf(p.pc) == Copying && StageOf(q.pc) == Shutting)) &&
            (StageOf(p.pc) == Copying && StageOf(q.pc) == Ending ==> q.cause == None)
  {
  }

  lemma SharedByStage(s: State, d: Dir, ch: Choice)
    requires Enabled(s, Move(d, ch))
    ensures SharedStep(s, Do(s, Move(d, ch)), StageOf(Of(s, d).pc))
  {
  }

  lemma OnceKept(s: State, t: State, d: Dir)
    requires OnceAgrees(s) && Of(t, Other(d)) == Of(s, Other(d))
    requires StageStep(StageOf(Of(s, d).pc), StageOf(Of(t, d).pc), s.once)
    requires SharedStep(s, t, StageOf(Of(s, d).pc))
    ensures OnceAgrees(t)
  {
  }

  lemma MainKept(s: State, t: State, d: Dir)
    requires OnceAgrees(s) && OnceAgrees(t) && MainAgrees(s)
    requires Of(t, Other(d)) == Of(s, Other(d))
    requires StageStep(StageOf(Of(s, d).pc), StageOf(Of(t, d).pc), s.once)
    requires SharedStep(s, t, StageOf(Of(s, d).pc))
    requires Of(t, d).cause == Of(s, d).cause || StageOf(Of(t, d).pc) == Shutting
    requires StageOf(Of(s, d).pc) == Copying && StageOf(Of(t, d).pc) == Ending ==> Of(t, d).cause == None
    ensures MainAgrees(t)
  {
  }

  /** Whatever goes wrong in a step, somebody is to blame: the environment, a closed end, or an earlier read error. */
  lemma TroubleHasCause(p: Pipe, v: View, ch: Choice)
    requires CanStep(p, v, ch)
    ensures var q := StepPipe(p, v, ch);
            (q.cause.Some? && p.cause.None?) || PendingError(q.pc) == Broken ==>
              Faulty(p, v, ch) || v.srcClosed || v.dstClosed || PendingError(p.pc) == Broken
    ensures StepPipe(p, v, ch).end == CutShort ==> p.end == CutShort || v.srcClosed
  {
  }

  /** As long as a pipe is alive, an end is closed only after a fault. */
  lemma ClosedIsFault(s: State, d: Dir)
    requires OnceAgrees(s) && MainAgrees(s) && FaultAgrees(s) && !Of(s, d).pc.Finished?
    ensures s.appClosed || s.proxyClosed ==> s.fault
  {
  }

  lemma FaultKept(s: State, t: State, d: Dir)
    requires OnceAgrees(s) && FaultAgrees(s) && Of(t, Other(d)) == Of(s, Other(d))
    requires SharedStep(s, t, StageOf(Of(s, d).pc)) && (s.fault ==> t.fault)
    requires StageOf(Of(s, d).pc) == Shutting ==> s.fault
    requires Of(t, d).cause.Some? || PendingError(Of(t, d).pc) == Broken || Of(t, d).end == CutShort ==> t.fault
    requires Of(t, d).end == CutShort ==> if d == Tx then t.appClosed else t.proxyClosed
    ensures FaultAgrees(t)
  {
  }

  lemma MoveKeepsFault(s: State, d: Dir, ch: Choice)
    requires Faithful(Of(s, d)) && OnceAgrees(s) && MainAgrees(s) && FaultAgrees(s) && Enabled(s, Move(d, ch))
    ensures FaultAgrees(Do(s, Move(d, ch)))
  {
    TroubleHasCause(Of(s, d), ViewOf(s, d), ch);
    ClosedIsFault(s, d);
    SharedByStage(s, d, ch);
    FaultKept(s, Do(s, Move(d, ch)), d);
  }

  lemma MoveKeepsPipes(s: State, d: Dir, ch: Choice)
    requires Inv(s) && Enabled(s, Move(d, ch))
    ensures var t := Do(s, Move(d, ch));
            Faithful(t.tx) && Faithful(t.rx) && StampedBy(t.tx, t.clock) && StampedBy(t.rx, t.clock)
  {
    StepKeepsFaithful(Of(s, d), ViewOf(s, d), ch);
    StepKeepsStamped(Of(s, d), ViewOf(s, d), ch);
  }

  lemma MoveKeepsProtocol(s: State, d: Dir, ch: Choice)
    requires Inv(s) && Enabled(s, Move(d, ch))
    ensures var t := Do(s, Move(d, ch)); OnceAgrees(t) && MainAgrees(t)
  {
    var t := Do(s, Move(d, ch));
    StageOfStep(Of(s, d), ViewOf(s, d), ch);
    SharedByStage(s, d, ch);
    OnceKept(s, t, d);
    MainKept(s, t, d);
  }

  lemma OthersKeepInv(s: State, a: Action)
    requires Inv(s) && Enabled(s, a) && !a.Move?
    ensures Inv(Do(s, a))
  {
  }

  lemma StepKeepsInv(s: State, a: Action)
    requires Inv(s) && Enabled(s, a)
    ensures Inv(Do(s, a))
  {
    if a.Move? {
      MoveKeepsPipes(s, a.d, a.ch);
      MoveKeepsProtocol(s, a.d, a.ch);
      MoveKeepsFault(s, a.d, a.ch);
    } else {
      OthersKeepInv(s, a);
    }
  }

  // ---------- every run ----------

  lemma StartInv(clock: int, up: seq<byte>, down: seq<byte>)
    ensures Inv(Start(clock, up, down))
  {
  }

  lemma {:induction false} RunKeepsInv(ss: seq<State>, acts: seq<Action>, start: State, n: nat)
    requires IsRun(ss, acts, start) && Inv(start) && n < |ss|
    ensures Inv(ss[n])
  {
    if n > 0 {
      RunKeepsInv(ss, acts, start, n - 1);
      StepKeepsInv(ss[n - 1], acts[n - 1]);
    }
  }

  lemma StepKeepsInput(p: Pipe, v: View, ch: Choice)
    requires CanStep(p, v, ch)
    ensures StepPipe(p, v, ch).input == p.input
  {
  }

  lemma StepKeepsInputs(s: State, a: Action)
    requires Enabled(s, a)
    ensures Do(s, a).tx.input == s.tx.input && Do(s, a).rx.input == s.rx.input
  {
    if a.Move? {
      StepKeepsInput(Of(s, a.d), ViewOf(s, a.d), a.ch);
    }
  }

  lemma {:induction false} RunKeepsInputs(ss: seq<State>, acts: seq<Action>, start: State, n: nat)
    requires IsRun(ss, acts, start) && n < |ss|
    ensures ss[n].tx.input == start.tx.input && ss[n].rx.input == start.rx.input
  {
    if n > 0 {
      RunKeepsInputs(ss, acts, start, n - 1);
      StepKeepsInputs(ss[n - 1], acts[n - 1]);
    }
  }

  /** CloseWrite is being issued, or has succeeded. */
  predicate PassesFin(p: Pipe) {
    p.pc.HalfClosing? || p.fin
  }

  /** Pipe d reads end of stream. */
  predicate ReadsEof(a: Action, d: Dir) {
    a.Move? && a.d == d && a.ch.ReadReturns? && a.ch.err == Eof
  }

  /** Every end of stream pipe d read before state n came from an end that was still open. */
  ghost predicate EndedOpen(ss: seq<State>, acts: seq<Action>, d: Dir, n: nat)
    requires n <= |acts| <= |ss|
  {
    forall m :: 0 <= m < n && ReadsEof(acts[m], d) ==> !ViewOf(ss[m], d).srcClosed
  }

  lemma CuttingStep(s: State, a: Action, d: Dir)
    requires Enabled(s, a) && Of(s, d).end != CutShort && Of(Do(s, a), d).end == CutShort
    ensures ReadsEof(a, d) && ViewOf(s, d).srcClosed
  {
  }

  lemma {:induction false} OpenEndsAreWhole(ss: seq<State>, acts: seq<Action>, start: State, d: Dir, n: nat)
    requires IsRun(ss, acts, start) && n < |ss| && Of(start, d).end == Open && EndedOpen(ss, acts, d, n)
    ensures Of(ss[n], d).end != CutShort
  {
    if n > 0 {
      OpenEndsAreWhole(ss, acts, start, d, n - 1);
      if Of(ss[n], d).end == CutShort {
        CuttingStep(ss[n - 1], acts[n - 1], d);
      }
    }
  }

  /**
   * Each direction only ever delivers a prefix of what its source sends. CloseWrite is issued only after every octet
   * read was written, and that is the whole stream exactly when the end of stream was the source's own, which it is
   * unless this program had closed the end by the time the pipe read it.
   */
  lemma StreamFidelity(ss: seq<State>, acts: seq<Action>, clock: int, up: seq<byte>, down: seq<byte>, n: nat)
    requires IsRun(ss, acts, Start(clock, up, down)) && n < |ss|
    ensures ss[n].tx.put <= ss[n].tx.got <= up && ss[n].rx.put <= ss[n].rx.got <= down
    ensures PassesFin(ss[n].tx) ==> ss[n].tx.put == ss[n].tx.got && (ss[n].tx.put == up <==> ss[n].tx.end == Whole)
    ensures PassesFin(ss[n].rx) ==> ss[n].rx.put == ss[n].rx.got && (ss[n].rx.put == down <==> ss[n].rx.end == Whole)
    ensures PassesFin(ss[n].tx) && EndedOpen(ss, acts, Tx, n) ==> ss[n].tx.put == up
    ensures PassesFin(ss[n].rx) && EndedOpen(ss, acts, Rx, n) ==> ss[n].rx.put == down
  {
    var start := Start(clock, up, down);
    StartInv(clock, up, down);
    RunKeepsInv(ss, acts, start, n);
    RunKeepsInputs(ss, acts, start, n);
    if EndedOpen(ss, acts, Tx, n) {
      OpenEndsAreWhole(ss, acts, start, Tx, n);
    }
    if EndedOpen(ss, acts, Rx, n) {
      OpenEndsAreWhole(ss, acts, start, Rx, n);
    }
  }

  /** An upload about to be read when the app's end is closed from outside. */
  lemma UploadBeingRead(clock: int, up: seq<byte>, down: seq<byte>) returns (ss: seq<State>)
    ensures IsRun(ss, [Move(Tx, Go), Move(Tx, Go), ForceClose], Start(clock, up, down))
    ensures ss[3].tx.pc.Reading? && ss[3].tx.got == ss[3].tx.put == [] && ss[3].tx.input == up
    ensures ss[3].appClosed && !ss[3].proxyClosed
  {
    var s0 := Start(clock, up, down);
    var s1 := Do(s0, Move(Tx, Go));
    var s2 := Do(s1, Move(Tx, Go));
    ss := [s0, s1, s2, Do(s2, ForceClose)];
  }

  lemma RunExtends(ss: seq<State>, acts: seq<Action>, start: State, a: Action, t: State)
    requires IsRun(ss, acts, start) && Enabled(ss[|acts|], a) && t == Do(ss[|acts|], a)
    ensures IsRun(ss + [t], acts + [a], start)
  {
  }

  /** End of stream on the closed end, then the CloseWrite it leads to. */
  lemma EndOfClosedEnd(s: State) returns (s1: State, s2: State, s3: State)
    requires s.tx.pc.Reading? && s.tx.got == s.tx.put == [] && s.tx.input != [] && s.appClosed && !s.proxyClosed
    ensures Enabled(s, Move(Tx, ReadReturns(0, Eof))) && s1 == Do(s, Move(Tx, ReadReturns(0, Eof)))
    ensures Enabled(s1, Move(Tx, Go)) && s2 == Do(s1, Move(Tx, Go))
    ensures Enabled(s2, Move(Tx, CloseWriteReturns(true))) && s3 == Do(s2, Move(Tx, CloseWriteReturns(true)))
    ensures s3.tx.fin && s3.tx.put == []
  {
    s1 := Do(s, Move(Tx, ReadReturns(0, Eof)));
    s2 := Do(s1, Move(Tx, Go));
    s3 := Do(s2, Move(Tx, CloseWriteReturns(true)));
  }

  /**
   * The guard matters: if reads on a closed end report end of stream, an outside close can make any unread upload look
   * like a finished one to the proxy.
   */
  lemma CutStreamIsPassedOn(clock: int, up: seq<byte>, down: seq<byte>) returns (ss: seq<State>, acts: seq<Action>)
    requires up != []
    ensures IsRun(ss, acts, Start(clock, up, down)) && |acts| == 6
    ensures ss[6].tx.fin && ss[6].tx.put == []
  {
    var start := Start(clock, up, down);
    ss := UploadBeingRead(clock, up, down);
    acts := [Move(Tx, Go), Move(Tx, Go), ForceClose];
    var s1, s2, s3 := EndOfClosedEnd(ss[3]);
    RunExtends(ss, acts, start, Move(Tx, ReadReturns(0, Eof)), s1);
    ss, acts := ss + [s1], acts + [Move(Tx, ReadReturns(0, Eof))];
    RunExtends(ss, acts, start, Move(Tx, Go), s2);
    ss, acts := ss + [s2], acts + [Move(Tx, Go)];
    RunExtends(ss, acts, start, Move(Tx, CloseWriteReturns(true)), s3);
    ss, acts := ss + [s3], acts + [Move(Tx, CloseWriteReturns(true))];
  }

  /**
   * Without a fault neither end is closed while a pipe is alive, and when both are done both streams arrived whole
   * with their FIN.
   */
  lemma HalfCloseLosesNothing(ss: seq<State>, acts: seq<Action>, clock: int, up: seq<byte>, down: seq<byte>, n: nat)
    requires IsRun(ss, acts, Start(clock, up, down)) && n < |ss| && !ss[n].fault
    ensures ss[n].main == Waiting ==> !ss[n].appClosed && !ss[n].proxyClosed
    ensures StageOf(ss[n].tx.pc) == Ending || StageOf(ss[n].tx.pc) == Over ==> ss[n].tx.put == up && ss[n].tx.fin
    ensures StageOf(ss[n].rx.pc) == Ending || StageOf(ss[n].rx.pc) == Over ==> ss[n].rx.put == down && ss[n].rx.fin
  {
    StartInv(clock, up, down);
    RunKeepsInv(ss, acts, Start(clock, up, down), n);
    RunKeepsInputs(ss, acts, Start(clock, up, down), n);
  }

  /**
   * What counts as a fault: an outside close, a read that breaks or a write or CloseWrite that fails on an end still
   * open, and an expired verdict. End of stream is none.
   */
  predicate FaultEvent(s: State, a: Action, t: State) {
    match a
    case ForceClose => true
    case Move(d, ch) =>
      var v := ViewOf(s, d);
      || (ch.ReadReturns? && ch.err == Broken && !v.srcClosed)
      || (ch.WriteReturns? && !ch.ok && !v.dstClosed)
      || (ch.CloseWriteReturns? && !ch.ok && !v.dstClosed)
      || (Of(s, d).pc.LoadingRx? && Of(t, d).pc.ShuttingDown?)
    case _ => false
  }

  lemma FaultStep(s: State, a: Action)
    requires Enabled(s, a)
    ensures Do(s, a).fault <==> s.fault || FaultEvent(s, a, Do(s, a))
  {
  }

  /** A run has a fault exactly when such an event has happened in it. */
  lemma {:induction false} FaultIff(
      ss: seq<State>, acts: seq<Action>, clock: int, up: seq<byte>, down: seq<byte>, n: nat)
    requires IsRun(ss, acts, Start(clock, up, down)) && n < |ss|
    ensures ss[n].fault <==> exists m :: 0 <= m < n && FaultEvent(ss[m], acts[m], ss[m + 1])
  {
    if n > 0 {
      FaultIff(ss, acts, clock, up, down, n - 1);
      FaultStep(ss[n - 1], acts[n - 1]);
      if FaultEvent(ss[n - 1], acts[n - 1], ss[n]) {
        assert FaultEvent(ss[n - 1], acts[n - 1], ss[n - 1 + 1]);
      }
    }
  }

  /**
   * shutdown closes each end at most once, and by the time pipeConnections returns both pipes are done and both ends
   * closed, once.
   */
  lemma TornDownOnce(ss: seq<State>, acts: seq<Action>, clock: int, up: seq<byte>, down: seq<byte>, n: nat)
    requires IsRun(ss, acts, Start(clock, up, down)) && n < |ss|
    ensures ss[n].appCloses <= 1 && ss[n].proxyCloses <= 1
    ensures ss[n].main == Returned ==>
              ss[n].tx.pc.Finished? && ss[n].rx.pc.Finished? && ss[n].appCloses == ss[n].proxyCloses == 1 &&
              ss[n].appClosed && ss[n].proxyClosed
  {
    StartInv(clock, up, down);
    RunKeepsInv(ss, acts, Start(clock, up, down), n);
  }
}
