/** The validation cache as a list of entries, most recently touched first. */
module Recency {
  import opened Addresses
  import opened Bytes

  datatype ConnectionKey = ConnectionKey(srcIP: IP, srcPort: word, dstIP: IP, dstPort: word, proto: byte)

  datatype ValidationResult = ValidationResult(allowed: bool, uid: int, expired: int)

  datatype Entry = Entry(key: ConnectionKey, result: ValidationResult)

  // ---------- lists ----------

  predicate Has(s: seq<Entry>, k: ConnectionKey) {
    exists i :: 0 <= i < |s| && s[i].key == k
  }

  predicate Distinct(s: seq<Entry>) {
    forall i, j :: 0 <= i < j < |s| ==> s[i].key != s[j].key
  }

  function Find(s: seq<Entry>, k: ConnectionKey): (i: nat)
    requires Has(s, k)
    ensures i < |s| && s[i].key == k
  {
    if s[0].key == k then 0 else
      assert Has(s[1..], k) by {
        var i :| 0 <= i < |s| && s[i].key == k;
        assert s[1..][i - 1].key == k;
      }
      1 + Find(s[1..], k)
  }

  function RemoveAt<T>(s: seq<T>, i: nat): (r: seq<T>)
    requires i < |s|
    ensures |r| == |s| - 1
    ensures forall j :: 0 <= j < |r| ==> r[j] == s[if j < i then j else j + 1]
  {
    s[..i] + s[i + 1..]
  }

  function Without(s: seq<Entry>, k: ConnectionKey): (r: seq<Entry>)
    ensures |r| <= |s|
  {
    if Has(s, k) then RemoveAt(s, Find(s, k)) else s
  }

  function Max0(capacity: int): nat {
    if capacity < 0 then 0 else capacity
  }

  ghost predicate Wellformed(s: seq<Entry>, capacity: int) {
    Distinct(s) && |s| <= Max0(capacity)
  }

  // ---------- the three operations ----------

  function GetState(s: seq<Entry>, k: ConnectionKey, now: int): seq<Entry> {
    if !Has(s, k) then s
    else if now < s[Find(s, k)].result.expired then [s[Find(s, k)]] + Without(s, k)
    else Without(s, k)
  }

  function GetResult(s: seq<Entry>, k: ConnectionKey, now: int): Option<ValidationResult> {
    if Has(s, k) && now < s[Find(s, k)].result.expired then Some(s[Find(s, k)].result) else None
  }

  lemma GetOfPresent(s: seq<Entry>, k: ConnectionKey, now: int)
    requires Has(s, k)
    ensures var i := Find(s, k);
            GetState(s, k, now) == (if now < s[i].result.expired then [s[i]] else []) + RemoveAt(s, i)
    ensures GetResult(s, k, now) == if now < s[Find(s, k)].result.expired then Some(s[Find(s, k)].result) else None
  {
  }

  function AddState(s: seq<Entry>, k: ConnectionKey, r: ValidationResult, now: int, ttl: int, capacity: int)
    : seq<Entry>
  {
    var t := [Entry(k, r.(expired := now + ttl))] + Without(s, k);
    if !Has(s, k) && |t| > capacity then t[..|t| - 1] else t
  }

  function RemoveState(s: seq<Entry>, k: ConnectionKey): seq<Entry> {
    Without(s, k)
  }

  // ---------- what every operation keeps ----------

  lemma WithoutKeeps(s: seq<Entry>, k: ConnectionKey)
    requires Distinct(s)
    ensures Distinct(Without(s, k)) && !Has(Without(s, k), k)
    ensures forall j :: j != k ==> (Has(Without(s, k), j) <==> Has(s, j))
    ensures |Without(s, k)| == if Has(s, k) then |s| - 1 else |s|
  {
    if Has(s, k) {
      var i, r := Find(s, k), Without(s, k);
      forall j | j != k && Has(s, j) ensures Has(r, j) {
        var x :| 0 <= x < |s| && s[x].key == j;
        assert r[if x < i then x else x - 1].key == j;
      }
    }
  }

  lemma OperationsKeepWellformed(
      s: seq<Entry>, k: ConnectionKey, r: ValidationResult, now: int, ttl: int, capacity: int)
    requires Wellformed(s, capacity)
    ensures Wellformed(GetState(s, k, now), capacity)
    ensures Wellformed(AddState(s, k, r, now, ttl, capacity), capacity)
    ensures Wellformed(RemoveState(s, k), capacity)
  {
    WithoutKeeps(s, k);
  }

  // ---------- what every operation means for the entries held ----------

  lemma WithoutMeans(s: seq<Entry>, k: ConnectionKey, e: Entry)
    requires Distinct(s)
    ensures e in Without(s, k) <==> e in s && e.key != k
  {
    if Has(s, k) {
      var i, r := Find(s, k), Without(s, k);
      if e in s && e.key != k {
        var x :| 0 <= x < |s| && s[x] == e;
        assert r[if x < i then x else x - 1] == e;
      }
      if e in r {
        var y :| 0 <= y < |r| && r[y] == e;
        assert e == s[if y < i then y else y + 1];
      }
    }
  }

  /**
   * Get answers with the one entry of its key that has not expired, and drops nothing but an expired entry of its key.
   */
  lemma GetMeans(s: seq<Entry>, k: ConnectionKey, now: int, e: Entry)
    requires Distinct(s)
    ensures e in s && e.key == k && now < e.result.expired ==> GetResult(s, k, now) == Some(e.result)
    ensures GetResult(s, k, now).Some? ==>
              now < GetResult(s, k, now).value.expired && Entry(k, GetResult(s, k, now).value) in s
    ensures e in GetState(s, k, now) <==> e in s && (e.key != k || now < e.result.expired)
    ensures GetResult(s, k, now).Some? ==> GetState(s, k, now)[0].key == k
  {
    WithoutMeans(s, k, e);
    if Has(s, k) {
      var i := Find(s, k);
      assert s[i] == Entry(k, s[i].result) && s[i] in s;
      if e in s && e.key == k {
        OnlyEntry(s, k, e);
      }
    }
  }

  lemma OnlyEntry(s: seq<Entry>, k: ConnectionKey, e: Entry)
    requires Distinct(s) && e in s && e.key == k
    ensures Has(s, k) && e == s[Find(s, k)]
  {
    var x :| 0 <= x < |s| && s[x] == e;
    assert s[x].key == k;
  }

  /**
   * Add stores its outcome, expiring ttl later, in place of any entry of its key, and drops nothing else unless the key
   * is new and the cache is full: then the last entry goes.
   */
  lemma AddMeans(s: seq<Entry>, k: ConnectionKey, r: ValidationResult, now: int, ttl: int, capacity: int, e: Entry)
    requires Wellformed(s, capacity)
    ensures var full := !Has(s, k) && |s| == Max0(capacity);
            e in AddState(s, k, r, now, ttl, capacity) <==>
            (e == Entry(k, ValidationResult(r.allowed, r.uid, now + ttl)) && capacity > 0) ||
            (e in s && e.key != k && !(full && e == s[|s| - 1]))
  {
    WithoutMeans(s, k, e);
    var added := Entry(k, r.(expired := now + ttl));
    if !Has(s, k) && |s| == Max0(capacity) && |s| > 0 {
      assert ([added] + s)[..|s|] == [added] + s[..|s| - 1];
      BeforeLast(s, e);
    }
  }

  lemma BeforeLast(s: seq<Entry>, e: Entry)
    requires Distinct(s) && s != []
    ensures e in s[..|s| - 1] <==> e in s && e != s[|s| - 1]
  {
    assert s == s[..|s| - 1] + [s[|s| - 1]];
  }
}
