/** Runs of the cache operations: order of last touch, eviction, and where every entry comes from. */
module RecencyRuns {
  import opened Recency

  datatype Op =
    | GetOp(key: ConnectionKey, now: int)
    | AddOp(key: ConnectionKey, outcome: ValidationResult, now: int)
    | RemoveOp(key: ConnectionKey)

  datatype Config = Config(capacity: int, ttl: int)

  function Apply(s: seq<Entry>, op: Op, c: Config): seq<Entry> {
    match op
    case GetOp(k, now) => GetState(s, k, now)
    case AddOp(k, r, now) => AddState(s, k, r, now, c.ttl, c.capacity)
    case RemoveOp(k) => RemoveState(s, k)
  }

  /** The cache after a run that starts empty. */
  function Exec(ops: seq<Op>, c: Config): seq<Entry> {
    if ops == [] then [] else Apply(Exec(ops[..|ops| - 1], c), ops[|ops| - 1], c)
  }

  lemma ExecOneMore(ops: seq<Op>, op: Op, c: Config)
    ensures Exec(ops + [op], c) == Apply(Exec(ops, c), op, c)
  {
    assert (ops + [op])[..|ops|] == ops;
  }

  lemma {:induction false} ExecWellformed(ops: seq<Op>, c: Config)
    ensures Wellformed(Exec(ops, c), c.capacity)
  {
    if ops != [] {
      var s, op := Exec(ops[..|ops| - 1], c), ops[|ops| - 1];
      ExecWellformed(ops[..|ops| - 1], c);
      OperationsKeepWellformed(s, op.key, if op.AddOp? then op.outcome else ValidationResult(false, 0, 0),
                               if op.RemoveOp? then 0 else op.now, c.ttl, c.capacity);
    }
  }

  // ---------- recency ----------

  /** An Add, or a Get that hits, touches its key. */
  predicate Touches(s: seq<Entry>, op: Op, k: ConnectionKey) {
    op.key == k && (op.AddOp? || (op.GetOp? && GetResult(s, k, op.now).Some?))
  }

  /** The position of the last operation that touched k, or -1. */
  function LastTouch(ops: seq<Op>, c: Config, k: ConnectionKey): (t: int)
    ensures -1 <= t < |ops|
  {
    if ops == [] then -1
    else if Touches(Exec(ops[..|ops| - 1], c), ops[|ops| - 1], k) then |ops| - 1
    else LastTouch(ops[..|ops| - 1], c, k)
  }

  ghost predicate ByLastTouch(ops: seq<Op>, c: Config, s: seq<Entry>) {
    && (forall i, j :: 0 <= i < j < |s| ==> LastTouch(ops, c, s[i].key) > LastTouch(ops, c, s[j].key))
    && (forall i :: 0 <= i < |s| ==> LastTouch(ops, c, s[i].key) >= 0)
  }

  /** What one operation leaves behind: a sublist in the old order, with the touched entry, if any, in front. */
  lemma ApplyShape(s: seq<Entry>, op: Op, c: Config)
    requires Distinct(s)
    ensures var t := Apply(s, op, c);
            Touches(s, op, op.key) ==>
              t == [] || (t[0].key == op.key && !Has(t[1..], op.key) && t[1..] <= Without(s, op.key))
    ensures !Touches(s, op, op.key) ==> Apply(s, op, c) == s || Apply(s, op, c) == Without(s, op.key)
  {
    WithoutKeeps(s, op.key);
    var full := Without(s, op.key);
    if op.AddOp? {
      var t := Apply(s, op, c);
      if t != [] {
        assert t[1..] == full || t[1..] == full[..|full| - 1];
        PrefixLacks(t[1..], full, op.key);
      }
    } else if op.GetOp? && Touches(s, op, op.key) {
      assert Apply(s, op, c)[1..] == full;
    }
  }

  lemma PrefixLacks(a: seq<Entry>, b: seq<Entry>, k: ConnectionKey)
    requires a <= b && !Has(b, k)
    ensures !Has(a, k)
  {
    forall i | 0 <= i < |a| ensures a[i].key != k {
      assert a[i] == b[i];
    }
  }

  /** Sublists keep the order of last touch. */
  lemma WithoutByLastTouch(ops: seq<Op>, c: Config, s: seq<Entry>, k: ConnectionKey)
    requires ByLastTouch(ops, c, s)
    ensures ByLastTouch(ops, c, Without(s, k))
  {
  }

  lemma PrefixByLastTouch(ops: seq<Op>, c: Config, a: seq<Entry>, b: seq<Entry>)
    requires ByLastTouch(ops, c, b) && a <= b
    ensures ByLastTouch(ops, c, a)
  {
    assert forall i :: 0 <= i < |a| ==> a[i] == b[i];
  }

  lemma SameTouches(ops: seq<Op>, c: Config, s: seq<Entry>)
    requires ops != [] && ByLastTouch(ops[..|ops| - 1], c, s)
    requires Touches(Exec(ops[..|ops| - 1], c), ops[|ops| - 1], ops[|ops| - 1].key) ==> !Has(s, ops[|ops| - 1].key)
    ensures ByLastTouch(ops, c, s)
  {
    forall i | 0 <= i < |s| ensures LastTouch(ops, c, s[i].key) == LastTouch(ops[..|ops| - 1], c, s[i].key) {
    }
  }

  /** After every run the entries stand in strictly decreasing order of last touch. */
  lemma {:induction false} OrderedByLastTouch(ops: seq<Op>, c: Config)
    ensures ByLastTouch(ops, c, Exec(ops, c))
  {
    if ops != [] {
      var before, op := ops[..|ops| - 1], ops[|ops| - 1];
      var s, t := Exec(before, c), Exec(ops, c);
      OrderedByLastTouch(before, c);
      ExecWellformed(before, c);
      ApplyShape(s, op, c);
      WithoutByLastTouch(before, c, s, op.key);
      if Touches(s, op, op.key) {
        if t != [] {
          PrefixByLastTouch(before, c, t[1..], Without(s, op.key));
          SameTouches(ops, c, t[1..]);
          FrontByLastTouch(ops, c, t);
        }
      } else {
        SameTouches(ops, c, t);
      }
    }
  }

  lemma FrontByLastTouch(ops: seq<Op>, c: Config, t: seq<Entry>)
    requires t != [] && ops != [] && ByLastTouch(ops, c, t[1..]) && !Has(t[1..], t[0].key)
    requires LastTouch(ops, c, t[0].key) == |ops| - 1
    ensures ByLastTouch(ops, c, t)
  {
    forall i | 1 <= i < |t| ensures 0 <= LastTouch(ops, c, t[i].key) < |ops| - 1 {
      assert t[i] == t[1..][i - 1];
      LatestTouchIsUnique(ops, c, t[0].key, t[i].key);
    }
    forall i, j | 1 <= i < j < |t| ensures LastTouch(ops, c, t[i].key) > LastTouch(ops, c, t[j].key) {
      assert t[i] == t[1..][i - 1] && t[j] == t[1..][j - 1];
    }
  }

  lemma LatestTouchIsUnique(ops: seq<Op>, c: Config, j: ConnectionKey, k: ConnectionKey)
    requires LastTouch(ops, c, j) == |ops| - 1 && j != k && ops != []
    ensures LastTouch(ops, c, k) < |ops| - 1
  {
  }

  /** A full cache that takes in a new key gives up exactly the key whose last touch is oldest. */
  lemma EvictsLeastRecentlyTouched(ops: seq<Op>, c: Config, k: ConnectionKey, r: ValidationResult, now: int)
    requires |Exec(ops, c)| == c.capacity > 0 && !Has(Exec(ops, c), k)
    ensures var s, t := Exec(ops, c), Exec(ops + [AddOp(k, r, now)], c);
            var victim := s[|s| - 1].key;
            (forall i :: 0 <= i < |s| - 1 ==> LastTouch(ops, c, victim) < LastTouch(ops, c, s[i].key)) &&
            !Has(t, victim) && t[0].key == k && t[1..] == s[..|s| - 1]
  {
    OrderedByLastTouch(ops, c);
    ExecWellformed(ops, c);
    assert (ops + [AddOp(k, r, now)])[..|ops|] == ops;
    EvictionShape(Exec(ops, c), k, r, now, c);
  }

  lemma EvictionShape(s: seq<Entry>, k: ConnectionKey, r: ValidationResult, now: int, c: Config)
    requires Distinct(s) && |s| == c.capacity > 0 && !Has(s, k)
    ensures var t := Apply(s, AddOp(k, r, now), c);
            t != [] && t[0].key == k && t[1..] == s[..|s| - 1] && !Has(t, s[|s| - 1].key)
  {
    var e := Entry(k, r.(expired := now + c.ttl));
    var t := Apply(s, AddOp(k, r, now), c);
    assert t == [e] + s[..|s| - 1];
    assert s[|s| - 1].key != k;
    forall i | 0 <= i < |t| ensures t[i].key != s[|s| - 1].key {
      if i > 0 {
        assert t[i] == s[i - 1];
      }
    }
  }

  // ---------- provenance ----------

  /** The position of the last Add or Remove of k, or -1. */
  function LastWrite(ops: seq<Op>, k: ConnectionKey): (p: int)
    ensures -1 <= p < |ops|
    ensures p >= 0 ==> ops[p].key == k && !ops[p].GetOp?
    ensures forall q :: p < q < |ops| ==> ops[q].key != k || ops[q].GetOp?
  {
    if ops == [] then -1
    else if ops[|ops| - 1].key == k && !ops[|ops| - 1].GetOp? then |ops| - 1
    else LastWrite(ops[..|ops| - 1], k)
  }

  /** e is the work of the last write of its key, an Add, which also fixed its expiry. */
  ghost predicate CameFrom(ops: seq<Op>, c: Config, e: Entry) {
    var p := LastWrite(ops, e.key);
    p >= 0 && ops[p].AddOp? && e.result == ops[p].outcome.(expired := ops[p].now + c.ttl)
  }

  ghost predicate AllCameFrom(ops: seq<Op>, c: Config, s: seq<Entry>) {
    forall i :: 0 <= i < |s| ==> CameFrom(ops, c, s[i])
  }

  lemma StillCameFrom(ops: seq<Op>, op: Op, c: Config, s: seq<Entry>)
    requires AllCameFrom(ops, c, s) && (op.GetOp? || !Has(s, op.key))
    ensures AllCameFrom(ops + [op], c, s)
  {
    assert (ops + [op])[..|ops|] == ops;
    forall i | 0 <= i < |s| ensures CameFrom(ops + [op], c, s[i]) {
      assert CameFrom(ops, c, s[i]);
    }
  }

  /** Without and truncation drop entries but alter none. */
  lemma SublistCameFrom(ops: seq<Op>, c: Config, s: seq<Entry>, t: seq<Entry>)
    requires AllCameFrom(ops, c, s) && forall e :: e in t ==> e in s
    ensures AllCameFrom(ops, c, t)
  {
    forall i | 0 <= i < |t| ensures CameFrom(ops, c, t[i]) {
      assert t[i] in t;
      var j :| 0 <= j < |s| && s[j] == t[i];
    }
  }

  lemma AddedCameFrom(ops: seq<Op>, op: Op, c: Config, rest: seq<Entry>)
    requires op.AddOp? && AllCameFrom(ops + [op], c, rest)
    ensures AllCameFrom(ops + [op], c, [Entry(op.key, op.outcome.(expired := op.now + c.ttl))] + rest)
  {
    assert CameFrom(ops + [op], c, Entry(op.key, op.outcome.(expired := op.now + c.ttl)));
  }

  /** Every entry of every run is the work of the last write of its key, and that write was an Add. */
  lemma {:induction false} EntriesComeFromAdds(ops: seq<Op>, c: Config)
    ensures AllCameFrom(ops, c, Exec(ops, c))
  {
    if ops != [] {
      var before, op := ops[..|ops| - 1], ops[|ops| - 1];
      var s := Exec(before, c);
      var rest := Without(s, op.key);
      assert ops == before + [op];
      EntriesComeFromAdds(before, c);
      ExecWellformed(before, c);
      WithoutKeeps(s, op.key);
      SublistCameFrom(before, c, s, rest);
      StillCameFrom(before, op, c, rest);
      match op
      case GetOp(k, now) =>
        StillCameFrom(before, op, c, s);
        SublistCameFrom(ops, c, s, Exec(ops, c));
      case AddOp(k, r, now) =>
        var full := [Entry(k, r.(expired := now + c.ttl))] + rest;
        AddedCameFrom(before, op, c, rest);
        SublistCameFrom(ops, c, full, Exec(ops, c));
      case RemoveOp(k) =>
    }
  }
}
