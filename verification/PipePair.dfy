/**
 * pipeConnections of go/engine.go as a transition system: two copying goroutines and the one that waits for them.
 * Every shared access is a step of its own; reads and writes move arbitrary chunks and may fail at any point.
 */
module PipePair {
  import opened Bytes
  import opened IdleVerdict

  const BUFFER_SIZE := 32768

  datatype ReadError = NoError | Timeout | Eof | Broken

  datatype Cause = ReadFault | WriteFault | Expired(zombie: bool) | NoCloseWrite

  /** Where a pipe stands. A chunk read together with an error carries that error until it is dealt with. */
  datatype PC =
    | GetBuffer
    | Arming
    | Reading(deadline: int)
    | Sampling(data: seq<byte>, err: ReadError)
    | Stamping(data: seq<byte>, err: ReadError, ms: int)
    | ArmingWrite(data: seq<byte>, err: ReadError)
    | Writing(data: seq<byte>, err: ReadError, deadline: int)
    | Handling(err: ReadError)
    | SamplingNow
    | LoadingTx(now: int)
    | LoadingRx(now: int, tx: int)
    | HalfClosing
    | ShuttingDown
    | ClosingApp
    | ClosingProxy
    | PuttingBuffer
    | Leaving
    | Finished

  /** CutShort: end of stream on an end this program had closed, with octets still to come from the source. */
  datatype End = Open | Whole | CutShort

  /**
   * input: all the source will ever send. got: read so far. put: accepted by the destination.
   * stamps: every value stored in the direction's timestamp, the first at creation.
   * end: whether an end of stream was read, and whether it was the source's own or one reported too early.
   * touched: the clock when the latest stamp was sampled.
   */
  datatype Pipe = Pipe(
    pc: PC, input: seq<byte>, got: seq<byte>, put: seq<byte>, end: End, fin: bool,
    stamps: seq<int>, touched: int, cause: Option<Cause>)

  datatype Once = Fresh | Busy | Ran

  /** What a pipe sees of the rest of the system. */
  datatype View = View(clock: int, srcClosed: bool, dstClosed: bool, once: Once, tx: seq<int>, rx: seq<int>)

  /** What the environment decides in a step. */
  datatype Choice =
    | Go
    | ReadReturns(n: nat, err: ReadError)
    | WriteReturns(m: nat, ok: bool)
    | CloseWriteReturns(ok: bool)

  // ---------- one pipe ----------

  /** What a call on an end this program has closed returns is the environment's choice, end of stream included. */
  predicate CanStep(p: Pipe, v: View, ch: Choice) {
    match p.pc
    case Reading(deadline) =>
      && ch.ReadReturns? && ch.n <= BUFFER_SIZE && |p.got| + ch.n <= |p.input|
      && (ch.n > 0 || ch.err != NoError)
      && (ch.err == Timeout ==> deadline <= v.clock)
      && (ch.err == Eof ==> |p.got| + ch.n == |p.input| || v.srcClosed)
    case Writing(data, _, _) => ch.WriteReturns? && ch.m <= |data| && (ch.ok ==> ch.m == |data|)
    case HalfClosing => ch.CloseWriteReturns?
    case Handling(err) => ch == Go && err != NoError
    case LoadingTx(_) => ch == Go && v.tx != []
    case LoadingRx(_, _) => ch == Go && v.rx != []
    case ShuttingDown => ch == Go && v.once != Busy
    case Finished => false
    case _ => ch == Go
  }

  function Last(s: seq<int>): int
    requires s != []
  {
    s[|s| - 1]
  }

  function StepPipe(p: Pipe, v: View, ch: Choice): Pipe
    requires CanStep(p, v, ch)
  {
    match p.pc
    case GetBuffer => p.(pc := Arming)
    case Arming => p.(pc := Reading(v.clock + CHECK_STEP_NS))
    case Reading(_) =>
      var data := p.input[|p.got|..|p.got| + ch.n];
      p.(pc := if ch.n > 0 then Sampling(data, ch.err) else Handling(ch.err),
         got := p.got + data,
         end := if ch.err != Eof then p.end else if |p.got| + ch.n == |p.input| then Whole else CutShort)
    case Sampling(data, err) => p.(pc := Stamping(data, err, Millis(v.clock)), touched := v.clock)
    case Stamping(data, err, ms) => p.(pc := ArmingWrite(data, err), stamps := p.stamps + [ms])
    case ArmingWrite(data, err) => p.(pc := Writing(data, err, v.clock + IDLE_NS))
    case Writing(data, err, _) =>
      var q := p.(put := p.put + data[..ch.m]);
      if !ch.ok then q.(pc := ShuttingDown, cause := Some(WriteFault))
      else if err == NoError then q.(pc := Arming)
      else q.(pc := Handling(err))
    case Handling(err) =>
      if err == Timeout then p.(pc := SamplingNow)
      else if err == Eof then p.(pc := HalfClosing)
      else p.(pc := ShuttingDown, cause := Some(ReadFault))
    case SamplingNow => p.(pc := LoadingTx(Millis(v.clock)))
    case LoadingTx(now) => p.(pc := LoadingRx(now, Last(v.tx)))
    case LoadingRx(now, tx) =>
      var verdict := Judge(tx, Last(v.rx), now);
      if verdict == Keep then p.(pc := Arming)
      else p.(pc := ShuttingDown, cause := Some(Expired(verdict == Zombie)))
    case HalfClosing =>
      if ch.ok then p.(pc := PuttingBuffer, fin := true)
      else p.(pc := ShuttingDown, cause := Some(NoCloseWrite))
    case ShuttingDown => p.(pc := if v.once == Fresh then ClosingApp else PuttingBuffer)
    case ClosingApp => p.(pc := ClosingProxy)
    case ClosingProxy => p.(pc := PuttingBuffer)
    case PuttingBuffer => p.(pc := Leaving)
    case Leaving => p.(pc := Finished)
  }

  // ---------- the system ----------

  datatype Dir = Tx | Rx

  datatype MainPC = Waiting | MainShutting | MainClosingApp | MainClosingProxy | Returned

  /**
   * appCloses, proxyCloses: how often shutdown closed each end. fault: something other than end-of-stream has
   * happened: a broken read or write on an open end, a refused CloseWrite, an expired verdict, an outside close.
   */
  datatype State = State(
    clock: int, tx: Pipe, rx: Pipe,
    appClosed: bool, proxyClosed: bool, appCloses: nat, proxyCloses: nat,
    once: Once, main: MainPC, fault: bool)

  datatype Action = Tick(to: int) | ForceClose | Move(d: Dir, ch: Choice) | MainMove

  function Start(clock: int, up: seq<byte>, down: seq<byte>): State {
    var tx := Pipe(GetBuffer, up, [], [], Open, false, [Millis(clock)], clock, None);
    State(clock, tx, tx.(input := down), false, false, 0, 0, Fresh, Waiting, false)
  }

  function Other(d: Dir): Dir {
    if d == Tx then Rx else Tx
  }

  function Of(s: State, d: Dir): Pipe {
    if d == Tx then s.tx else s.rx
  }

  /** Tx copies from the app to the proxy, Rx from the proxy to the app. */
  function ViewOf(s: State, d: Dir): View {
    if d == Tx then View(s.clock, s.appClosed, s.proxyClosed, s.once, s.tx.stamps, s.rx.stamps)
    else View(s.clock, s.proxyClosed, s.appClosed, s.once, s.tx.stamps, s.rx.stamps)
  }

  predicate Enabled(s: State, a: Action) {
    match a
    case Tick(to) => s.clock <= to
    case ForceClose => true
    case Move(d, ch) => CanStep(Of(s, d), ViewOf(s, d), ch)
    case MainMove =>
      match s.main
      case Waiting => s.tx.pc.Finished? && s.rx.pc.Finished?
      case MainShutting => s.once != Busy
      case Returned => false
      case _ => true
  }

  /** A step that is nobody's orderly end of stream. */
  predicate Faulty(p: Pipe, v: View, ch: Choice)
    requires CanStep(p, v, ch)
  {
    match p.pc
    case Reading(_) => ch.err == Broken && !v.srcClosed
    case Writing(_, _, _) => !ch.ok && !v.dstClosed
    case HalfClosing => !ch.ok && !v.dstClosed
    case LoadingRx(now, tx) => Judge(tx, Last(v.rx), now) != Keep
    case _ => false
  }

  function CloseApp(s: State): State {
    s.(appClosed := true, appCloses := s.appCloses + 1)
  }

  function CloseProxy(s: State): State {
    s.(proxyClosed := true, proxyCloses := s.proxyCloses + 1, once := Ran)
  }

  /** The effect of a pipe's step on what is shared. */
  function Shared(s: State, pc: PC): State {
    match pc
    case ShuttingDown => if s.once == Fresh then s.(once := Busy) else s
    case ClosingApp => CloseApp(s)
    case ClosingProxy => CloseProxy(s)
    case _ => s
  }

  function Do(s: State, a: Action): State
    requires Enabled(s, a)
  {
    match a
    case Tick(to) => s.(clock := to)
    case ForceClose => s.(appClosed := true, fault := true)
    case Move(d, ch) =>
      var p, v := Of(s, d), ViewOf(s, d);
      var t := Shared(s, p.pc).(fault := s.fault || Faulty(p, v, ch));
      if d == Tx then t.(tx := StepPipe(p, v, ch)) else t.(rx := StepPipe(p, v, ch))
    case MainMove =>
      (match s.main
       case Waiting => s.(main := MainShutting)
       case MainShutting =>
         if s.once == Fresh then s.(once := Busy, main := MainClosingApp) else s.(main := Returned)
       case MainClosingApp => CloseApp(s).(main := MainClosingProxy)
       case MainClosingProxy => CloseProxy(s).(main := Returned))
  }

  ghost predicate IsRun(ss: seq<State>, acts: seq<Action>, start: State) {
    && |ss| == |acts| + 1 && ss[0] == start
    && forall i :: 0 <= i < |acts| ==> Enabled(ss[i], acts[i]) && ss[i + 1] == Do(ss[i], acts[i])
  }
}
