/** The inclusion property of LRU for the hook: a smaller cache always holds a prefix of a larger one. */
module HookInclusion {
  import opened Bytes
  import opened Recency
  import opened RecencyRuns
  import opened EngineHook

  /** One call on a hook whose validator is set. */
  datatype Request = ValidateReq(key: ConnectionKey, env: Circumstance) | InvalidateReq(key: ConnectionKey)

  function Serve(s: seq<Entry>, r: Request, c: Config): seq<Entry> {
    match r
    case ValidateReq(k, e) => ValidateState(s, k, true, e, c)
    case InvalidateReq(k) => RemoveState(s, k)
  }

  function ServeAll(rs: seq<Request>, c: Config): seq<Entry> {
    if rs == [] then [] else Serve(ServeAll(rs[..|rs| - 1], c), rs[|rs| - 1], c)
  }

  /** The same call, made under possibly different clocks and answers. */
  predicate SameCall(p: Request, q: Request) {
    p.key == q.key && (p.ValidateReq? <==> q.ValidateReq?)
  }

  predicate SameCalls(ps: seq<Request>, qs: seq<Request>) {
    |ps| == |qs| && forall i :: 0 <= i < |ps| ==> SameCall(ps[i], qs[i])
  }

  // ---------- the keys alone ----------

  function Keys(s: seq<Entry>): (ks: seq<ConnectionKey>)
    ensures |ks| == |s|
  {
    seq(|s|, i requires 0 <= i < |s| => s[i].key)
  }

  function Drop(ks: seq<ConnectionKey>, k: ConnectionKey): seq<ConnectionKey> {
    if ks == [] then [] else if ks[0] == k then ks[1..] else [ks[0]] + Drop(ks[1..], k)
  }

  function KeysAfter(ks: seq<ConnectionKey>, r: Request, capacity: int): seq<ConnectionKey> {
    if r.ValidateReq? then Take([r.key] + Drop(ks, r.key), Max0(capacity)) else Drop(ks, r.key)
  }

  lemma {:induction false} DropAt(ks: seq<ConnectionKey>, k: ConnectionKey, i: nat)
    requires i < |ks| && ks[i] == k && forall j :: 0 <= j < i ==> ks[j] != k
    ensures Drop(ks, k) == ks[..i] + ks[i + 1..]
  {
    if i > 0 {
      DropAt(ks[1..], k, i - 1);
    }
  }

  lemma {:induction false} DropNothing(ks: seq<ConnectionKey>, k: ConnectionKey)
    requires k !in ks
    ensures Drop(ks, k) == ks
  {
    if ks != [] {
      DropNothing(ks[1..], k);
    }
  }

  lemma KeysOfRemoveAt(s: seq<Entry>, i: nat)
    requires i < |s|
    ensures Keys(RemoveAt(s, i)) == Keys(s)[..i] + Keys(s)[i + 1..]
  {
  }

  lemma KeysWithout(s: seq<Entry>, k: ConnectionKey)
    requires Distinct(s)
    ensures Keys(Without(s, k)) == Drop(Keys(s), k)
  {
    if Has(s, k) {
      var i := Find(s, k);
      DropAt(Keys(s), k, i);
      KeysOfRemoveAt(s, i);
    } else {
      assert k !in Keys(s);
      DropNothing(Keys(s), k);
    }
  }

  lemma KeysOfCons(e: Entry, s: seq<Entry>)
    ensures Keys([e] + s) == [e.key] + Keys(s)
  {
  }

  lemma KeysOfPrefix(s: seq<Entry>, n: nat)
    requires n <= |s|
    ensures Keys(s[..n]) == Keys(s)[..n]
  {
  }

  lemma AddedKeys(s: seq<Entry>, k: ConnectionKey, e: Circumstance, c: Config)
    requires Wellformed(s, c.capacity) && !Has(s, k)
    ensures Keys(AddState(s, k, ValidationResult(e.answer, -1, 0), e.addTime, c.ttl, c.capacity)) ==
            Take([k] + Keys(s), Max0(c.capacity))
  {
    var entry := Entry(k, ValidationResult(e.answer, -1, e.addTime + c.ttl));
    KeysOfCons(entry, s);
    KeysOfPrefix([entry] + s, |s|);
  }

  /** A Validate, hit or miss, puts its key in front and drops at most the last one. */
  lemma KeysOfValidate(s: seq<Entry>, k: ConnectionKey, e: Circumstance, c: Config)
    requires Wellformed(s, c.capacity)
    ensures Keys(ValidateState(s, k, true, e, c)) == Take([k] + Drop(Keys(s), k), Max0(c.capacity))
    ensures Wellformed(ValidateState(s, k, true, e, c), c.capacity)
  {
    var t := GetState(s, k, e.getTime);
    OperationsKeepWellformed(s, k, ValidationResult(e.answer, -1, 0), e.getTime, c.ttl, c.capacity);
    OperationsKeepWellformed(t, k, ValidationResult(e.answer, -1, 0), e.addTime, c.ttl, c.capacity);
    KeysWithout(s, k);
    WithoutKeeps(s, k);
    if GetResult(s, k, e.getTime).Some? {
      KeysOfCons(s[Find(s, k)], Without(s, k));
    } else {
      assert t == Without(s, k);
      AddedKeys(t, k, e, c);
    }
  }

  lemma {:induction false} KeysOfRun(rs: seq<Request>, c: Config)
    ensures Wellformed(ServeAll(rs, c), c.capacity)
    ensures rs != [] ==> Keys(ServeAll(rs, c)) == KeysAfter(Keys(ServeAll(rs[..|rs| - 1], c)), rs[|rs| - 1], c.capacity)
  {
    if rs != [] {
      var s, r := ServeAll(rs[..|rs| - 1], c), rs[|rs| - 1];
      KeysOfRun(rs[..|rs| - 1], c);
      match r
      case ValidateReq(k, e) => KeysOfValidate(s, k, e, c);
      case InvalidateReq(k) =>
        KeysWithout(s, k);
        WithoutKeeps(s, k);
    }
  }

  // ---------- inclusion ----------

  lemma {:induction false} DropKeepsPrefix(a: seq<ConnectionKey>, b: seq<ConnectionKey>, k: ConnectionKey)
    requires a <= b
    ensures Drop(a, k) <= Drop(b, k)
  {
    if a != [] {
      assert a[0] == b[0];
      DropKeepsPrefix(a[1..], b[1..], k);
    }
  }

  lemma TakeKeepsPrefix(a: seq<ConnectionKey>, b: seq<ConnectionKey>, m: nat, n: nat)
    requires a <= b && m <= n
    ensures Take(a, m) <= Take(b, n)
  {
  }

  /** Whatever the TTLs, clocks and validator answers, the smaller cache's keys are a prefix of the larger cache's. */
  lemma {:induction false} SmallerCacheIsPrefix(ps: seq<Request>, qs: seq<Request>, small: Config, large: Config)
    requires SameCalls(ps, qs) && small.capacity <= large.capacity
    ensures Keys(ServeAll(ps, small)) <= Keys(ServeAll(qs, large))
  {
    if ps != [] {
      var n := |ps| - 1;
      SmallerCacheIsPrefix(ps[..n], qs[..n], small, large);
      KeysOfRun(ps, small);
      KeysOfRun(qs, large);
      var a, b, k := Keys(ServeAll(ps[..n], small)), Keys(ServeAll(qs[..n], large)), ps[n].key;
      assert SameCall(ps[n], qs[n]);
      DropKeepsPrefix(a, b, k);
      assert [k] + Drop(a, k) <= [k] + Drop(b, k);
      TakeKeepsPrefix([k] + Drop(a, k), [k] + Drop(b, k), Max0(small.capacity), Max0(large.capacity));
    }
  }
}
