/** tcpBufPool of go/engine.go shared by the pipes of every connection: who owns which buffer, and what it holds. */
module BufferPool {
  import opened Bytes
  import PipePair

  /**
   * A pipe's use of its buffer: before Get, between Get and Put, after Put. unwritten: octets read but not yet
   * written out.
   */
  datatype Holder = NoBuffer | Holding(buffer: nat, unwritten: nat) | GaveBack

  /** got, put: everything a pipe has read from its source, and written to its destination. */
  datatype Pipe = Pipe(holder: Holder, got: seq<byte>, put: seq<byte>)

  /**
   * memory: the contents of every buffer ever made. pool: the buffers free to be taken. collected: how many are gone.
   */
  datatype State = State(memory: seq<seq<byte>>, pool: multiset<nat>, pipes: seq<Pipe>, collected: nat)

  datatype Action =
    | Spawn
    | GetPooled(p: nat, b: nat)         // Get finds a free buffer
    | GetNew(p: nat, block: seq<byte>)  // Get calls New
    | Read(p: nat, data: seq<byte>)     // src.Read fills the front of the buffer
    | Write(p: nat)                     // dst.Write(buf[:n]) takes it all
    | Abandon(p: nat, n: nat)           // dst.Write fails after n octets
    | PutBack(p: nat)
    | Collect(b: nat)                   // the garbage collector empties the pool

  function Init(): State {
    State([], multiset{}, [], 0)
  }

  predicate Holds(s: State, p: nat) {
    p < |s.pipes| && s.pipes[p].holder.Holding? && s.pipes[p].holder.buffer < |s.memory|
  }

  predicate Enabled(s: State, a: Action) {
    match a
    case Spawn => true
    case GetPooled(p, b) => p < |s.pipes| && s.pipes[p].holder == NoBuffer && b in s.pool
    case GetNew(p, block) => p < |s.pipes| && s.pipes[p].holder == NoBuffer && |block| == PipePair.BUFFER_SIZE
    case Read(p, data) =>
      Holds(s, p) && s.pipes[p].holder.unwritten == 0 && |data| <= |s.memory[s.pipes[p].holder.buffer]|
    case Write(p) => Holds(s, p) && s.pipes[p].holder.unwritten <= |s.memory[s.pipes[p].holder.buffer]|
    case Abandon(p, n) =>
      Holds(s, p) && n <= s.pipes[p].holder.unwritten <= |s.memory[s.pipes[p].holder.buffer]|
    case PutBack(p) => Holds(s, p)
    case Collect(b) => b in s.pool
  }

  function Overwrite(was: seq<byte>, data: seq<byte>): (r: seq<byte>)
    requires |data| <= |was|
    ensures |r| == |was| && r[..|data|] == data
  {
    data + was[|data|..]
  }

  function Do(s: State, a: Action): State
    requires Enabled(s, a)
  {
    match a
    case Spawn => s.(pipes := s.pipes + [Pipe(NoBuffer, [], [])])
    case GetPooled(p, b) =>
      s.(pool := s.pool - multiset{b}, pipes := s.pipes[p := s.pipes[p].(holder := Holding(b, 0))])
    case GetNew(p, block) =>
      s.(memory := s.memory + [block], pipes := s.pipes[p := s.pipes[p].(holder := Holding(|s.memory|, 0))])
    case Read(p, data) =>
      var q := s.pipes[p];
      s.(memory := s.memory[q.holder.buffer := Overwrite(s.memory[q.holder.buffer], data)],
         pipes := s.pipes[p := q.(holder := q.holder.(unwritten := |data|), got := q.got + data)])
    case Write(p) =>
      var q := s.pipes[p];
      s.(pipes := s.pipes[p := q.(holder := q.holder.(unwritten := 0),
                                  put := q.put + s.memory[q.holder.buffer][..q.holder.unwritten])])
    case Abandon(p, n) =>
      var q := s.pipes[p];
      s.(pool := s.pool + multiset{q.holder.buffer},
         pipes := s.pipes[p := q.(holder := GaveBack, put := q.put + s.memory[q.holder.buffer][..n])])
    case PutBack(p) =>
      var q := s.pipes[p];
      s.(pool := s.pool + multiset{q.holder.buffer}, pipes := s.pipes[p := q.(holder := GaveBack)])
    case Collect(b) => s.(pool := s.pool - multiset{b}, collected := s.collected + 1)
  }

  // ---------- ownership ----------

  /** A free buffer is free once and held by nobody. */
  predicate Exclusive(s: State) {
    && (forall b :: b in s.pool ==> b < |s.memory| && s.pool[b] == 1)
    && (forall p :: 0 <= p < |s.pipes| && s.pipes[p].holder.Holding? ==>
          s.pipes[p].holder.buffer < |s.memory| && s.pipes[p].holder.buffer !in s.pool)
    && (forall p, q :: 0 <= p < q < |s.pipes| && s.pipes[p].holder.Holding? && s.pipes[q].holder.Holding? ==>
          s.pipes[p].holder.buffer != s.pipes[q].holder.buffer)
  }

  /** What a pipe has read is what it has written plus what waits at the front of its own buffer. */
  predicate Intact(s: State, p: nat) {
    p < |s.pipes| &&
    match s.pipes[p].holder
    case NoBuffer => s.pipes[p].got == [] == s.pipes[p].put
    case Holding(b, n) =>
      b < |s.memory| && n <= |s.memory[b]| && s.pipes[p].got == s.pipes[p].put + s.memory[b][..n]
    case GaveBack => s.pipes[p].put <= s.pipes[p].got
  }

  predicate Inv(s: State) {
    Exclusive(s) && forall p :: 0 <= p < |s.pipes| ==> Intact(s, p)
  }

  lemma TakingKeepsExclusive(s: State, a: Action)
    requires Exclusive(s) && Enabled(s, a) && (a.GetPooled? || a.GetNew?)
    ensures Exclusive(Do(s, a))
  {
  }

  lemma CopyingKeepsExclusive(s: State, a: Action)
    requires Exclusive(s) && Enabled(s, a) && (a.Spawn? || a.Read? || a.Write? || a.Collect?)
    ensures Exclusive(Do(s, a))
  {
  }

  lemma StepKeepsExclusive(s: State, a: Action)
    requires Exclusive(s) && Enabled(s, a)
    ensures Exclusive(Do(s, a))
  {
    if a.GetPooled? || a.GetNew? {
      TakingKeepsExclusive(s, a);
    } else if !a.Abandon? && !a.PutBack? {
      CopyingKeepsExclusive(s, a);
    }
  }

  /** A step leaves the buffers of all other pipes as they are. */
  lemma OthersIntact(s: State, a: Action, p: nat)
    requires Inv(s) && Enabled(s, a) && p < |s.pipes| && Do(s, a).pipes[p] == s.pipes[p]
    requires !a.Spawn? ==> a.Collect? || a.p != p
    ensures Intact(Do(s, a), p)
  {
    assert Intact(s, p);
  }

  lemma ActorIntact(s: State, a: Action)
    requires Inv(s) && Enabled(s, a) && !a.Spawn? && !a.Collect?
    ensures Intact(Do(s, a), a.p)
  {
    assert Intact(s, a.p);
  }

  lemma StepKeepsInv(s: State, a: Action)
    requires Inv(s) && Enabled(s, a)
    ensures Inv(Do(s, a))
  {
    var t := Do(s, a);
    StepKeepsExclusive(s, a);
    forall p | 0 <= p < |t.pipes| ensures Intact(t, p) {
      if p < |s.pipes| && (a.Spawn? || a.Collect? || a.p != p) {
        OthersIntact(s, a, p);
      } else if !a.Spawn? {
        ActorIntact(s, a);
      }
    }
  }

  ghost predicate IsRun(ss: seq<State>, acts: seq<Action>) {
    && |ss| == |acts| + 1 && ss[0] == Init()
    && forall i :: 0 <= i < |acts| ==> Enabled(ss[i], acts[i]) && ss[i + 1] == Do(ss[i], acts[i])
  }

  lemma {:induction false} RunKeepsInv(ss: seq<State>, acts: seq<Action>, n: nat)
    requires IsRun(ss, acts) && n < |ss|
    ensures Inv(ss[n])
  {
    if n > 0 {
      RunKeepsInv(ss, acts, n - 1);
      StepKeepsInv(ss[n - 1], acts[n - 1]);
    }
  }

  /** Live pipes of any number of connections hold pairwise different buffers, none of them free. */
  lemma BuffersAreExclusive(ss: seq<State>, acts: seq<Action>, n: nat, p: nat, q: nat)
    requires IsRun(ss, acts) && n < |ss| && p < |ss[n].pipes| && q < |ss[n].pipes|
    requires ss[n].pipes[p].holder.Holding? && ss[n].pipes[q].holder.Holding?
    ensures ss[n].pipes[p].holder.buffer !in ss[n].pool
    ensures p != q ==> ss[n].pipes[p].holder.buffer != ss[n].pipes[q].holder.buffer
  {
    RunKeepsInv(ss, acts, n);
  }

  /** Hence a pipe only ever writes octets it read itself, in order, whatever the other connections do with the pool. */
  lemma NoStrayOctets(ss: seq<State>, acts: seq<Action>, n: nat, p: nat)
    requires IsRun(ss, acts) && n < |ss| && p < |ss[n].pipes|
    ensures ss[n].pipes[p].put <= ss[n].pipes[p].got
  {
    RunKeepsInv(ss, acts, n);
    assert Intact(ss[n], p);
  }

  // ---------- no buffer is lost ----------

  function Held(pipes: seq<Pipe>): nat {
    if pipes == [] then 0 else Bit(pipes[0].holder.Holding?) + Held(pipes[1..])
  }

  lemma {:induction false} HeldAppend(pipes: seq<Pipe>, x: Pipe)
    ensures Held(pipes + [x]) == Held(pipes) + Bit(x.holder.Holding?)
  {
    if pipes == [] {
      assert [] + [x] == [x];
    } else {
      assert (pipes + [x])[1..] == pipes[1..] + [x];
      HeldAppend(pipes[1..], x);
    }
  }

  lemma {:induction false} HeldUpdate(pipes: seq<Pipe>, p: nat, x: Pipe)
    requires p < |pipes|
    ensures Held(pipes[p := x]) == Held(pipes) + Bit(x.holder.Holding?) - Bit(pipes[p].holder.Holding?)
  {
    if p == 0 {
      assert pipes[0 := x][1..] == pipes[1..];
    } else {
      assert pipes[p := x][1..] == pipes[1..][p - 1 := x];
      HeldUpdate(pipes[1..], p - 1, x);
    }
  }

  /** Every buffer ever made is free, held or collected. */
  predicate Conserved(s: State) {
    |s.memory| == |s.pool| + Held(s.pipes) + s.collected
  }

  predicate AllSized(s: State) {
    forall b :: 0 <= b < |s.memory| ==> |s.memory[b]| == 32768
  }

  lemma StepConserves(s: State, a: Action)
    requires Conserved(s) && Enabled(s, a)
    ensures Conserved(Do(s, a))
  {
    if a.Spawn? {
      HeldAppend(s.pipes, Pipe(NoBuffer, [], []));
    } else if !a.Collect? {
      HeldUpdate(s.pipes, a.p, Do(s, a).pipes[a.p]);
    }
  }

  lemma StepKeepsSizes(s: State, a: Action)
    requires AllSized(s) && Enabled(s, a)
    ensures AllSized(Do(s, a))
  {
  }

  /** In every run each buffer made has 32 KB and is free, held by a pipe, or taken by the collector: none leaks. */
  lemma {:induction false} NoBufferIsLost(ss: seq<State>, acts: seq<Action>, n: nat)
    requires IsRun(ss, acts) && n < |ss|
    ensures |ss[n].memory| == |ss[n].pool| + Held(ss[n].pipes) + ss[n].collected
    ensures forall b :: 0 <= b < |ss[n].memory| ==> |ss[n].memory[b]| == 32768
  {
    if n > 0 {
      NoBufferIsLost(ss, acts, n - 1);
      StepConserves(ss[n - 1], acts[n - 1]);
      StepKeepsSizes(ss[n - 1], acts[n - 1]);
    }
  }
}
