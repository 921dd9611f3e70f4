/** EngineHook.Validate under concurrency: Get under the lock, the callback without it, Add under the lock. */
module HookProtocol {
  import opened Bytes
  import opened Recency
  import opened RecencyRuns

  /** One callback: the call that made it, the arguments it was given, which installation answered, and what. */
  datatype Asked = Asked(call: nat, key: ConnectionKey, epoch: nat, answer: bool)

  /**
   * Denied(epoch): installation epoch was no validator at all. Cached(allowed, get): the Get at position get of the
   * operation log hit. Own(ask): the answer at that position of the ask log.
   */
  datatype Verdict = Denied(epoch: nat) | Own(answer: bool, ask: nat) | Cached(allowed: bool, get: nat) {
    predicate Allows() {
      match this
      case Denied(_) => false
      case Own(a, _) => a
      case Cached(a, _) => a
    }
  }

  datatype Fate = Undecided | Closed | Tracked

  /** Where a flow handler is: inside Validate, or past it with a verdict reached at some time. */
  datatype Phase =
    | Entered
    | Missed
    | Loaded(epoch: nat)
    | Answered(ask: nat)
    | Done(verdict: Verdict, at: int, fate: Fate)

  datatype Call = Call(key: ConnectionKey, phase: Phase)

  datatype State = State(
    clock: int,
    installed: seq<Option<int>>,  // every SetValidator so far, starting with none
    ops: seq<Op>,        // every cache operation, in lock order
    source: seq<nat>,    // for each Add, the position in asks of the answer it stores
    asks: seq<Asked>,
    calls: seq<Call>)

  datatype Action =
    | Tick(to: int)
    | Enter(key: ConnectionKey)
    | CacheGet(call: nat)
    | LoadValidator(call: nat)
    | Answer(call: nat, answer: bool)
    | CacheAdd(call: nat)
    | Invalidate(key: ConnectionKey)
    | SetValidator(v: Option<int>)
    | CloseFlow(call: nat)
    | TrackFlow(call: nat)

  function Init(): State {
    State(0, [None], [], [], [], [])
  }

  predicate At(s: State, i: nat, ph: Phase) {
    i < |s.calls| && s.calls[i].phase == ph
  }

  predicate Enabled(s: State, a: Action) {
    match a
    case Tick(to) => s.clock <= to
    case Enter(_) => true
    case CacheGet(i) => At(s, i, Entered)
    case LoadValidator(i) => At(s, i, Missed) && s.installed != []
    case Answer(i, _) => i < |s.calls| && s.calls[i].phase.Loaded?
    case CacheAdd(i) => i < |s.calls| && s.calls[i].phase.Answered? && s.calls[i].phase.ask < |s.asks|
    case Invalidate(_) => true
    case SetValidator(_) => true
    case CloseFlow(i) => i < |s.calls| && s.calls[i].phase.Done? && s.calls[i].phase.fate == Undecided
    case TrackFlow(i) =>
      i < |s.calls| && s.calls[i].phase.Done? && s.calls[i].phase.fate == Undecided && s.calls[i].phase.verdict.Allows()
  }

  function Goto(s: State, i: nat, ph: Phase): State
    requires i < |s.calls|
  {
    s.(calls := s.calls[i := s.calls[i].(phase := ph)])
  }

  function Log(s: State, op: Op, from: nat): State {
    s.(ops := s.ops + [op], source := s.source + [from])
  }

  function Do(s: State, a: Action, c: Config): State
    requires Enabled(s, a)
  {
    match a
    case Tick(to) => s.(clock := to)
    case Enter(k) => s.(calls := s.calls + [Call(k, Entered)])
    case CacheGet(i) =>
      var k := s.calls[i].key;
      var s' := Log(s, GetOp(k, s.clock), 0);
      (match GetResult(Exec(s.ops, c), k, s.clock)
       case Some(r) => Goto(s', i, Done(Cached(r.allowed, |s.ops|), s.clock, Undecided))
       case None => Goto(s', i, Missed))
    case LoadValidator(i) =>
      var epoch := |s.installed| - 1;
      if s.installed[epoch] == None then Goto(s, i, Done(Denied(epoch), s.clock, Undecided))
      else Goto(s, i, Loaded(epoch))
    case Answer(i, answer) =>
      var ask := Asked(i, s.calls[i].key, s.calls[i].phase.epoch, answer);
      Goto(s.(asks := s.asks + [ask]), i, Answered(|s.asks|))
    case CacheAdd(i) =>
      var ask := s.calls[i].phase.ask;
      var answer := s.asks[ask].answer;
      Goto(Log(s, AddOp(s.calls[i].key, ValidationResult(answer, -1, 0), s.clock), ask), i,
           Done(Own(answer, ask), s.clock, Undecided))
    case Invalidate(k) => Log(s, RemoveOp(k), 0)
    case SetValidator(v) => s.(installed := s.installed + [v])
    case CloseFlow(i) => Goto(s, i, s.calls[i].phase.(fate := Closed))
    case TrackFlow(i) => Goto(s, i, s.calls[i].phase.(fate := Tracked))
  }

  // ---------- what is promised ----------

  /** The answer at position ask was given to this very call, for its own arguments. */
  ghost predicate OwnAnswer(s: State, i: nat, ask: nat) {
    && i < |s.calls| && ask < |s.asks| && s.asks[ask].call == i && s.asks[ask].key == s.calls[i].key
    && Installed(s, s.asks[ask].epoch)
  }

  ghost predicate Installed(s: State, epoch: nat) {
    epoch < |s.installed| && s.installed[epoch].Some?
  }

  /** The Add at position p stores a callback's answer for exactly its key. */
  ghost predicate HonestAdd(s: State, p: nat) {
    && p < |s.ops| == |s.source|
    && (s.ops[p].AddOp? ==>
          && s.source[p] < |s.asks|
          && s.asks[s.source[p]].key == s.ops[p].key
          && s.ops[p].outcome == ValidationResult(s.asks[s.source[p]].answer, -1, 0))
  }

  /** A hit repeats the last write of its key, an honest Add less than ttl old when the hit happened. */
  ghost predicate FreshHit(s: State, key: ConnectionKey, allowed: bool, get: nat, at: int, c: Config) {
    && get < |s.ops|
    && var p := LastWrite(s.ops[..get], key);
       && p >= 0 && s.ops[p].AddOp? && s.ops[p].key == key
       && s.ops[p].outcome.allowed == allowed
       && s.ops[p].now <= at < s.ops[p].now + c.ttl
       && HonestAdd(s, p)
  }

  ghost predicate Justified(s: State, i: nat, c: Config) {
    i < |s.calls| &&
    match s.calls[i].phase
    case Loaded(epoch) => Installed(s, epoch)
    case Answered(ask) => OwnAnswer(s, i, ask)
    case Done(v, at, fate) =>
      && (fate == Tracked ==> v.Allows())
      && (match v
          case Denied(epoch) => epoch < |s.installed| && s.installed[epoch] == None
          case Own(answer, ask) => OwnAnswer(s, i, ask) && s.asks[ask].answer == answer
          case Cached(allowed, get) => FreshHit(s, s.calls[i].key, allowed, get, at, c))
    case _ => true
  }

  predicate NotLater(op: Op, t: int) {
    op.RemoveOp? || op.now <= t
  }

  ghost predicate Inv(s: State, c: Config) {
    && |s.ops| == |s.source| && s.installed != []
    && (forall p :: 0 <= p < |s.ops| ==> NotLater(s.ops[p], s.clock))
    && (forall p :: 0 <= p < |s.ops| ==> HonestAdd(s, p))
    && (forall i :: 0 <= i < |s.calls| ==> Justified(s, i, c))
  }

  // ---------- preservation ----------

  /** The logs only grow, and calls keep their keys. */
  ghost predicate Extends(s: State, t: State) {
    && s.ops <= t.ops && s.source <= t.source && s.asks <= t.asks && s.installed <= t.installed && s.clock <= t.clock
    && |s.ops| == |s.source| && |t.ops| == |t.source|
    && |s.calls| <= |t.calls| && forall i :: 0 <= i < |s.calls| ==> t.calls[i].key == s.calls[i].key
  }

  lemma HonestAddStays(s: State, t: State, p: nat)
    requires Extends(s, t) && HonestAdd(s, p)
    ensures HonestAdd(t, p)
  {
    assert t.ops[p] == s.ops[p] && t.source[p] == s.source[p];
    if s.ops[p].AddOp? {
      assert t.asks[s.source[p]] == s.asks[s.source[p]];
    }
  }

  lemma FreshHitStays(s: State, t: State, key: ConnectionKey, allowed: bool, get: nat, at: int, c: Config)
    requires Extends(s, t) && FreshHit(s, key, allowed, get, at, c)
    ensures FreshHit(t, key, allowed, get, at, c)
  {
    assert t.ops[..get] == s.ops[..get];
    var p := LastWrite(s.ops[..get], key);
    assert t.ops[p] == s.ops[p];
    HonestAddStays(s, t, p);
  }

  lemma JustifiedStays(s: State, t: State, i: nat, c: Config)
    requires Extends(s, t) && Justified(s, i, c) && t.calls[i].phase == s.calls[i].phase
    ensures Justified(t, i, c)
  {
    match s.calls[i].phase
    case Answered(ask) => assert t.asks[ask] == s.asks[ask];
    case Done(v, at, fate) =>
      match v {
        case Denied(epoch) => assert t.installed[epoch] == s.installed[epoch];
        case Own(answer, ask) => assert t.asks[ask] == s.asks[ask];
        case Cached(allowed, get) => FreshHitStays(s, t, s.calls[i].key, allowed, get, at, c);
      }
    case _ =>
  }

  lemma StepExtends(s: State, a: Action, c: Config)
    requires Inv(s, c) && Enabled(s, a)
    ensures Extends(s, Do(s, a, c))
  {
  }

  /** A hit under the lock is fresh. */
  lemma HitIsFresh(s: State, t: State, k: ConnectionKey, c: Config)
    requires Inv(s, c) && Extends(s, t) && |t.ops| == |s.ops| + 1
    requires GetResult(Exec(s.ops, c), k, s.clock).Some?
    ensures FreshHit(t, k, GetResult(Exec(s.ops, c), k, s.clock).value.allowed, |s.ops|, s.clock, c)
  {
    var entries := Exec(s.ops, c);
    var e := entries[Find(entries, k)];
    EntriesComeFromAdds(s.ops, c);
    assert CameFrom(s.ops, c, e);
    var p := LastWrite(s.ops, k);
    assert t.ops[..|s.ops|] == s.ops && t.ops[p] == s.ops[p];
    assert NotLater(s.ops[p], s.clock);
    HonestAddStays(s, t, p);
  }

  lemma ActorJustified(s: State, a: Action, c: Config, i: nat)
    requires Inv(s, c) && Enabled(s, a) && i < |Do(s, a, c).calls|
    requires i >= |s.calls| || Do(s, a, c).calls[i].phase != s.calls[i].phase
    ensures Justified(Do(s, a, c), i, c)
  {
    var t := Do(s, a, c);
    StepExtends(s, a, c);
    if i < |s.calls| {
      assert Justified(s, i, c);
      match a
      case CacheGet(j) =>
        if GetResult(Exec(s.ops, c), s.calls[j].key, s.clock).Some? {
          HitIsFresh(s, t, s.calls[j].key, c);
        }
      case CloseFlow(j) => JustifiedStays(s, Goto(t, i, s.calls[i].phase), i, c);
      case TrackFlow(j) => JustifiedStays(s, Goto(t, i, s.calls[i].phase), i, c);
      case _ =>
    }
  }

  lemma StepKeepsInv(s: State, a: Action, c: Config)
    requires Inv(s, c) && Enabled(s, a)
    ensures Inv(Do(s, a, c), c)
  {
    var t := Do(s, a, c);
    StepExtends(s, a, c);
    forall p | 0 <= p < |t.ops| ensures NotLater(t.ops[p], t.clock) && HonestAdd(t, p) {
      if p < |s.ops| {
        assert t.ops[p] == s.ops[p] && NotLater(s.ops[p], s.clock);
        HonestAddStays(s, t, p);
      } else {
        NewOpHonest(s, a, c, p);
      }
    }
    forall i | 0 <= i < |t.calls| ensures Justified(t, i, c) {
      if i < |s.calls| && t.calls[i].phase == s.calls[i].phase {
        JustifiedStays(s, t, i, c);
      } else {
        ActorJustified(s, a, c, i);
      }
    }
  }

  lemma NewOpHonest(s: State, a: Action, c: Config, p: nat)
    requires Inv(s, c) && Enabled(s, a) && |s.ops| <= p < |Do(s, a, c).ops|
    ensures NotLater(Do(s, a, c).ops[p], Do(s, a, c).clock) && HonestAdd(Do(s, a, c), p)
  {
    if a.CacheAdd? {
      assert Justified(s, a.call, c);
    }
  }

  // ---------- every run ----------

  ghost predicate IsRun(ss: seq<State>, acts: seq<Action>, c: Config) {
    && |ss| == |acts| + 1 && ss[0] == Init()
    && forall i :: 0 <= i < |acts| ==> Enabled(ss[i], acts[i]) && ss[i + 1] == Do(ss[i], acts[i], c)
  }

  lemma {:induction false} RunKeepsInv(ss: seq<State>, acts: seq<Action>, c: Config, n: nat)
    requires IsRun(ss, acts, c) && n < |ss|
    ensures Inv(ss[n], c)
  {
    if n > 0 {
      RunKeepsInv(ss, acts, c, n - 1);
      StepKeepsInv(ss[n - 1], acts[n - 1], c);
    }
  }

  // ---------- where a verdict comes from ----------

  /**
   * Step a, taken in state s, gives call i the verdict in ph: it finds no validator, hits, or stores the call's own
   * answer.
   */
  ghost predicate Decides(s: State, a: Action, i: nat, ph: Phase) {
    && i < |s.calls| && ph.Done? && s.clock == ph.at
    && match ph.verdict
       case Denied(epoch) => a == LoadValidator(i) && |s.installed| == epoch + 1 && s.installed[epoch] == None
       case Own(_, ask) => a == CacheAdd(i) && s.calls[i].phase == Answered(ask)
       case Cached(_, get) => a == CacheGet(i) && |s.ops| == get
  }

  /** A call whose flow is decided keeps its verdict and its time; any other with a verdict has just been given it. */
  lemma DecidingStep(s: State, a: Action, c: Config, i: nat)
    requires Enabled(s, a) && i < |Do(s, a, c).calls| && Do(s, a, c).calls[i].phase.Done?
    ensures var ph := Do(s, a, c).calls[i].phase;
            || Decides(s, a, i, ph)
            || (i < |s.calls| && s.calls[i].phase.Done? &&
                s.calls[i].phase.verdict == ph.verdict && s.calls[i].phase.at == ph.at)
  {
  }

  lemma {:induction false} DecisionOf(ss: seq<State>, acts: seq<Action>, c: Config, n: nat, i: nat) returns (m: nat)
    requires IsRun(ss, acts, c) && n < |ss| && i < |ss[n].calls| && ss[n].calls[i].phase.Done?
    ensures m < n && Decides(ss[m], acts[m], i, ss[n].calls[i].phase)
  {
    assert n > 0;
    DecidingStep(ss[n - 1], acts[n - 1], c, i);
    if Decides(ss[n - 1], acts[n - 1], i, ss[n].calls[i].phase) {
      m := n - 1;
    } else {
      m := DecisionOf(ss, acts, c, n - 1, i);
    }
  }

  /**
   * The operation at position p stored a callback's answer for exactly this key, less than ttl before time at, and
   * nothing wrote or dropped the key between it and the operation at position get.
   */
  ghost predicate StoredAt(s: State, k: ConnectionKey, allowed: bool, p: nat, get: nat, at: int, c: Config) {
    && p < get < |s.ops| == |s.source| && s.ops[p].AddOp?
    && s.ops[p] == AddOp(k, ValidationResult(allowed, -1, 0), s.ops[p].now)
    && s.source[p] < |s.asks| && s.asks[s.source[p]].key == k && s.asks[s.source[p]].answer == allowed
    && s.ops[p].now <= at < s.ops[p].now + c.ttl
    && forall q :: p < q < get ==> s.ops[q].key != k || s.ops[q].GetOp?
  }

  lemma FreshHitIsStored(s: State, k: ConnectionKey, allowed: bool, get: nat, at: int, c: Config) returns (p: nat)
    requires FreshHit(s, k, allowed, get, at, c)
    ensures StoredAt(s, k, allowed, p, get, at, c)
  {
    var past := s.ops[..get];
    p := LastWrite(past, k);
    assert HonestAdd(s, p);
    forall q | p < q < get ensures s.ops[q].key != k || s.ops[q].GetOp? {
      assert past[q] == s.ops[q];
    }
  }

  /**
   * In every state of every run, a verdict was decided by one step m of the call: it found that no validator was
   * installed at that moment, or it stored the answer this very call got for its own arguments, or its Get hit, at that
   * place in the order of cache operations and at that time, an entry whose Add stored a callback's answer for the
   * identical key less than ttl before.
   */
  lemma VerdictsAreExactAndFresh(ss: seq<State>, acts: seq<Action>, c: Config, n: nat, i: nat) returns (m: nat)
    requires IsRun(ss, acts, c) && n < |ss| && i < |ss[n].calls| && ss[n].calls[i].phase.Done?
    ensures m < n
    ensures var s, k := ss[n], ss[n].calls[i].key;
            match s.calls[i].phase.verdict
            case Denied(_) =>
              acts[m] == LoadValidator(i) && ss[m].installed != [] && ss[m].installed[|ss[m].installed| - 1] == None
            case Own(answer, ask) =>
              && acts[m] == CacheAdd(i) && ss[m].calls[i].phase == Answered(ask) && ask < |s.asks|
              && s.asks[ask].call == i && s.asks[ask].key == k && s.asks[ask].answer == answer
              && Installed(s, s.asks[ask].epoch)
            case Cached(allowed, get) =>
              && acts[m] == CacheGet(i) && |ss[m].ops| == get
              && exists p: nat :: StoredAt(s, k, allowed, p, get, ss[m].clock, c)
  {
    var s, k := ss[n], ss[n].calls[i].key;
    RunKeepsInv(ss, acts, c, n);
    assert Justified(s, i, c);
    m := DecisionOf(ss, acts, c, n, i);
    var ph := s.calls[i].phase;
    if ph.verdict.Cached? {
      var p := FreshHitIsStored(s, k, ph.verdict.allowed, ph.verdict.get, ph.at, c);
    }
  }

  /** Every tracked flow was allowed, by its own call's answer or by a fresh stored one for the identical 5-tuple. */
  lemma TrackedFlowsWereAllowed(ss: seq<State>, acts: seq<Action>, c: Config, n: nat, i: nat) returns (m: nat)
    requires IsRun(ss, acts, c) && n < |ss| && i < |ss[n].calls|
    requires ss[n].calls[i].phase.Done? && ss[n].calls[i].phase.fate == Tracked
    ensures m < n
    ensures var s, k := ss[n], ss[n].calls[i].key;
            match s.calls[i].phase.verdict
            case Denied(_) => false
            case Own(_, ask) =>
              && acts[m] == CacheAdd(i) && ask < |s.asks|
              && s.asks[ask].call == i && s.asks[ask].key == k && s.asks[ask].answer
            case Cached(_, get) =>
              && acts[m] == CacheGet(i) && |ss[m].ops| == get
              && exists p: nat :: StoredAt(s, k, true, p, get, ss[m].clock, c)
  {
    RunKeepsInv(ss, acts, c, n);
    assert Justified(ss[n], i, c);
    m := VerdictsAreExactAndFresh(ss, acts, c, n, i);
  }

  // ---------- which validator answered ----------

  /** Step x is where call i loaded the validator of installation epoch, the latest one at that moment. */
  ghost predicate LoadedAt(ss: seq<State>, acts: seq<Action>, x: nat, i: nat, epoch: nat) {
    x < |acts| < |ss| && acts[x] == LoadValidator(i) && |ss[x].installed| == epoch + 1 && ss[x].installed[epoch].Some?
  }

  lemma LoadingStep(s: State, a: Action, c: Config, i: nat)
    requires Enabled(s, a) && i < |Do(s, a, c).calls| && Do(s, a, c).calls[i].phase.Loaded?
    ensures var epoch := Do(s, a, c).calls[i].phase.epoch;
            || (a == LoadValidator(i) && |s.installed| == epoch + 1 && s.installed[epoch].Some?)
            || (i < |s.calls| && s.calls[i].phase == Loaded(epoch))
  {
  }

  lemma {:induction false} LoadOf(ss: seq<State>, acts: seq<Action>, c: Config, n: nat, i: nat) returns (x: nat)
    requires IsRun(ss, acts, c) && n < |ss| && i < |ss[n].calls| && ss[n].calls[i].phase.Loaded?
    ensures x < n && LoadedAt(ss, acts, x, i, ss[n].calls[i].phase.epoch)
  {
    assert n > 0;
    LoadingStep(ss[n - 1], acts[n - 1], c, i);
    if LoadedAt(ss, acts, n - 1, i, ss[n].calls[i].phase.epoch) {
      x := n - 1;
    } else {
      x := LoadOf(ss, acts, c, n - 1, i);
    }
  }

  lemma AnsweringStep(s: State, a: Action, c: Config, i: nat)
    requires Enabled(s, a) && i < |Do(s, a, c).calls| && Do(s, a, c).calls[i].phase.Answered?
    ensures var t, ask := Do(s, a, c), Do(s, a, c).calls[i].phase.ask;
            || (i < |s.calls| && s.calls[i].phase == Answered(ask))
            || (a.Answer? && a.call == i && i < |s.calls| && s.calls[i].phase.Loaded? && ask == |s.asks| < |t.asks| &&
                t.asks[ask] == Asked(i, s.calls[i].key, s.calls[i].phase.epoch, a.answer))
  {
  }

  lemma AsksGrow(s: State, a: Action, c: Config)
    requires Enabled(s, a)
    ensures s.asks <= Do(s, a, c).asks
  {
  }

  lemma {:induction false} AsksKept(ss: seq<State>, acts: seq<Action>, c: Config, m: nat, n: nat)
    requires IsRun(ss, acts, c) && m <= n < |ss|
    ensures ss[m].asks <= ss[n].asks
    decreases n - m
  {
    if m < n {
      AsksKept(ss, acts, c, m, n - 1);
      AsksGrow(ss[n - 1], acts[n - 1], c);
    }
  }

  /** The answer that call i holds in state n was given at step y by the validator it had loaded at step x. */
  lemma {:induction false} AnswerOf(ss: seq<State>, acts: seq<Action>, c: Config, n: nat, i: nat)
    returns (x: nat, y: nat)
    requires IsRun(ss, acts, c) && n < |ss| && i < |ss[n].calls| && ss[n].calls[i].phase.Answered?
    ensures var ask := ss[n].calls[i].phase.ask;
            && x < y < n && ask < |ss[n].asks| && acts[y] == Answer(i, ss[n].asks[ask].answer)
            && LoadedAt(ss, acts, x, i, ss[n].asks[ask].epoch)
  {
    assert n > 0;
    var ask := ss[n].calls[i].phase.ask;
    AnsweringStep(ss[n - 1], acts[n - 1], c, i);
    if i < |ss[n - 1].calls| && ss[n - 1].calls[i].phase == Answered(ask) {
      x, y := AnswerOf(ss, acts, c, n - 1, i);
      AsksKept(ss, acts, c, n - 1, n);
    } else {
      x := LoadOf(ss, acts, c, n - 1, i);
      y := n - 1;
    }
  }

  /** An own answer comes from the validator that was the installed one when this very call loaded it. */
  lemma OwnAnswerIsCurrent(ss: seq<State>, acts: seq<Action>, c: Config, n: nat, i: nat)
    returns (x: nat, y: nat, m: nat)
    requires IsRun(ss, acts, c) && n < |ss| && i < |ss[n].calls|
    requires ss[n].calls[i].phase.Done? && ss[n].calls[i].phase.verdict.Own?
    ensures x < y < m < n && acts[m] == CacheAdd(i) && acts[y] == Answer(i, ss[n].calls[i].phase.verdict.answer)
    ensures acts[x] == LoadValidator(i) && ss[x].installed != [] && ss[x].installed[|ss[x].installed| - 1].Some?
  {
    m := VerdictsAreExactAndFresh(ss, acts, c, n, i);
    x, y := AnswerOf(ss, acts, c, m, i);
    AsksKept(ss, acts, c, m, n);
  }

  // ---------- the operation log and the steps that write it ----------

  /** Step a, taken in state s, puts op at the end of the operation log. */
  predicate Logs(s: State, a: Action, op: Op) {
    match a
    case CacheGet(i) => i < |s.calls| && op == GetOp(s.calls[i].key, s.clock)
    case CacheAdd(i) =>
      && i < |s.calls| && s.calls[i].phase.Answered? && s.calls[i].phase.ask < |s.asks|
      && op == AddOp(s.calls[i].key, ValidationResult(s.asks[s.calls[i].phase.ask].answer, -1, 0), s.clock)
    case Invalidate(k) => op == RemoveOp(k)
    case _ => false
  }

  /** Gets, Adds and Invalidates each log their one operation; nothing else touches the log. */
  lemma LoggingStep(s: State, a: Action, c: Config)
    requires Enabled(s, a)
    ensures var t := Do(s, a, c);
            if a.CacheGet? || a.CacheAdd? || a.Invalidate?
            then |t.ops| == |s.ops| + 1 && t.ops[..|s.ops|] == s.ops && Logs(s, a, t.ops[|s.ops|])
            else t.ops == s.ops
  {
  }

  lemma LogGrowsByStep(ss: seq<State>, acts: seq<Action>, c: Config, x: nat)
    requires IsRun(ss, acts, c) && x < |acts|
    ensures ss[x].ops <= ss[x + 1].ops
    ensures acts[x].CacheGet? || acts[x].CacheAdd? || acts[x].Invalidate? ==>
              |ss[x + 1].ops| == |ss[x].ops| + 1 && Logs(ss[x], acts[x], ss[x + 1].ops[|ss[x].ops|])
    ensures |ss[x + 1].ops| == |ss[x].ops| + 1 ==> Logs(ss[x], acts[x], ss[x + 1].ops[|ss[x].ops|])
    ensures |ss[x].ops| <= |ss[x + 1].ops| <= |ss[x].ops| + 1
  {
    LoggingStep(ss[x], acts[x], c);
  }

  lemma {:induction false} LogGrows(ss: seq<State>, acts: seq<Action>, c: Config, m: nat, n: nat)
    requires IsRun(ss, acts, c) && m <= n < |ss|
    ensures ss[m].ops <= ss[n].ops
    decreases n - m
  {
    if m < n {
      LogGrows(ss, acts, c, m, n - 1);
      LogGrowsByStep(ss, acts, c, n - 1);
    }
  }

  /** Every logged operation has the step that logged it. */
  lemma {:induction false} LoggedBy(ss: seq<State>, acts: seq<Action>, c: Config, n: nat, p: nat) returns (w: nat)
    requires IsRun(ss, acts, c) && n < |ss| && p < |ss[n].ops|
    ensures w < n && |ss[w].ops| == p && Logs(ss[w], acts[w], ss[n].ops[p])
  {
    assert n > 0;
    LogGrowsByStep(ss, acts, c, n - 1);
    if p < |ss[n - 1].ops| {
      w := LoggedBy(ss, acts, c, n - 1, p);
      assert ss[n].ops[p] == ss[n - 1].ops[p];
    } else {
      w := n - 1;
    }
  }

  /** Step x invalidates key k, or stores an answer for it. */
  predicate Rewrites(s: State, a: Action, k: ConnectionKey) {
    a == Invalidate(k) || (a.CacheAdd? && a.call < |s.calls| && s.calls[a.call].key == k)
  }

  /**
   * A hit at step m repeats the answer that an earlier step w stored for the identical key, less than ttl before, and
   * between the two nobody invalidated that key or stored another answer for it.
   */
  lemma HitFollowsStore(ss: seq<State>, acts: seq<Action>, c: Config, n: nat, i: nat) returns (m: nat, w: nat)
    requires IsRun(ss, acts, c) && n < |ss| && i < |ss[n].calls|
    requires ss[n].calls[i].phase.Done? && ss[n].calls[i].phase.verdict.Cached?
    ensures w < m < n && acts[m] == CacheGet(i)
    ensures var k, allowed := ss[n].calls[i].key, ss[n].calls[i].phase.verdict.allowed;
            && acts[w].CacheAdd? && Rewrites(ss[w], acts[w], k)
            && Logs(ss[w], acts[w], AddOp(k, ValidationResult(allowed, -1, 0), ss[w].clock))
            && ss[w].clock <= ss[m].clock < ss[w].clock + c.ttl
            && forall x :: w < x < m ==> !Rewrites(ss[x], acts[x], k)
  {
    var s, k := ss[n], ss[n].calls[i].key;
    m := VerdictsAreExactAndFresh(ss, acts, c, n, i);
    var p: nat :| StoredAt(s, k, s.calls[i].phase.verdict.allowed, p, |ss[m].ops|, ss[m].clock, c);
    LogGrows(ss, acts, c, m, n);
    w := LoggedBy(ss, acts, c, m, p);
    assert ss[m].ops[p] == s.ops[p];
    forall x | w < x < m ensures !Rewrites(ss[x], acts[x], k) {
      NoRewriteBetween(ss, acts, c, n, m, w, x, k, p);
    }
  }

  lemma NoRewriteBetween(
      ss: seq<State>, acts: seq<Action>, c: Config, n: nat, m: nat, w: nat, x: nat, k: ConnectionKey, p: nat)
    requires IsRun(ss, acts, c) && w < x < m < n < |ss| && |ss[w].ops| == p < |ss[m].ops| <= |ss[n].ops|
    requires acts[w].CacheAdd?
    requires forall q :: p < q < |ss[m].ops| ==> ss[n].ops[q].key != k || ss[n].ops[q].GetOp?
    ensures !Rewrites(ss[x], acts[x], k)
  {
    if acts[x].Invalidate? || acts[x].CacheAdd? {
      LogGrowsByStep(ss, acts, c, w);
      LogGrows(ss, acts, c, w + 1, x);
      LogGrowsByStep(ss, acts, c, x);
      LogGrows(ss, acts, c, x + 1, m);
      LogGrows(ss, acts, c, x + 1, n);
      var q := |ss[x].ops|;
      assert ss[n].ops[q] == ss[x + 1].ops[q];
    }
  }

  lemma StoredAnswerHits(ops: seq<Op>, k: ConnectionKey, answer: bool, at: int, now: int, c: Config)
    requires c.capacity > 0 && now < at + c.ttl
    ensures GetResult(Exec(ops + [AddOp(k, ValidationResult(answer, -1, 0), at)], c), k, now) ==
            Some(ValidationResult(answer, -1, at + c.ttl))
  {
    var op := AddOp(k, ValidationResult(answer, -1, 0), at);
    var e := Entry(k, ValidationResult(answer, -1, at + c.ttl));
    ExecOneMore(ops, op, c);
    ExecWellformed(ops, c);
    ExecWellformed(ops + [op], c);
    AddMeans(Exec(ops, c), k, op.outcome, at, c.ttl, c.capacity, e);
    GetMeans(Exec(ops + [op], c), k, now, e);
  }

  /**
   * A stored answer is used: if the next cache operation is a Get of the same key within ttl, it hits with that answer.
   */
  lemma NextGetHits(ss: seq<State>, acts: seq<Action>, c: Config, w: nat, m: nat)
    requires IsRun(ss, acts, c) && w < m < |acts| && c.capacity > 0
    requires acts[w].CacheAdd? && acts[m].CacheGet?
    requires |ss[m].ops| == |ss[w].ops| + 1 && ss[m].clock < ss[w].clock + c.ttl
    requires acts[m].call < |ss[m].calls| && acts[w].call < |ss[w].calls|
    requires ss[m].calls[acts[m].call].key == ss[w].calls[acts[w].call].key
    ensures Enabled(ss[w], acts[w]) && acts[m].call < |ss[m + 1].calls|
    ensures ss[m + 1].calls[acts[m].call].phase ==
            Done(Cached(ss[w].asks[ss[w].calls[acts[w].call].phase.ask].answer, |ss[m].ops|), ss[m].clock, Undecided)
  {
    var k, answer := ss[w].calls[acts[w].call].key, ss[w].asks[ss[w].calls[acts[w].call].phase.ask].answer;
    LogGrowsByStep(ss, acts, c, w);
    LogGrows(ss, acts, c, w + 1, m);
    assert ss[m].ops == ss[w].ops + [AddOp(k, ValidationResult(answer, -1, 0), ss[w].clock)];
    StoredAnswerHits(ss[w].ops, k, answer, ss[w].clock, ss[m].clock, c);
  }
}
