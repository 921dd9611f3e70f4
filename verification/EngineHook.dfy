/** EngineHook of go/engine_hook.go, used by one caller at a time. */
module EngineHook {
  import opened Bytes
  import opened Addresses
  import opened Recency
  import opened RecencyRuns
  import opened LruCache

  function NewConnectionKey(srcIP: IP, srcPort: word, dstIP: IP, dstPort: word, proto: byte): ConnectionKey {
    ConnectionKey(Canonical(srcIP), srcPort, Canonical(dstIP), dstPort, proto)
  }

  /** A call as the cache and the validator see it: the times it reads and the answer it would get. */
  datatype Circumstance = Circumstance(getTime: int, answer: bool, addTime: int)

  function ValidateState(s: seq<Entry>, k: ConnectionKey, hasValidator: bool, e: Circumstance, c: Config): seq<Entry> {
    var t := GetState(s, k, e.getTime);
    if GetResult(s, k, e.getTime).Some? || !hasValidator then t
    else AddState(t, k, ValidationResult(e.answer, -1, 0), e.addTime, c.ttl, c.capacity)
  }

  /** Two keys are equal exactly when ports and protocol are and the addresses name the same hosts. */
  lemma KeysEqualIff(
      srcIP: IP, srcPort: word, dstIP: IP, dstPort: word, proto: byte,
      srcIP': IP, srcPort': word, dstIP': IP, dstPort': word, proto': byte)
    ensures NewConnectionKey(srcIP, srcPort, dstIP, dstPort, proto) ==
            NewConnectionKey(srcIP', srcPort', dstIP', dstPort', proto') <==>
            SameHost(srcIP, srcIP') && srcPort == srcPort' && SameHost(dstIP, dstIP') && dstPort == dstPort' &&
            proto == proto'
  {
    SameCanonicalIff(srcIP, srcIP');
    SameCanonicalIff(dstIP, dstIP');
  }

  /** An answer of the validator is remembered: under its key the cache holds it and nothing else, until ttl later. */
  lemma MissIsRemembered(s: seq<Entry>, k: ConnectionKey, e: Circumstance, c: Config, r: ValidationResult)
    requires Wellformed(s, c.capacity) && c.capacity > 0
    requires forall q :: Entry(k, q) in s ==> q.expired <= e.getTime
    ensures Entry(k, r) in ValidateState(s, k, true, e, c) <==> r == ValidationResult(e.answer, -1, e.addTime + c.ttl)
  {
    var t, answer := GetState(s, k, e.getTime), ValidationResult(e.answer, -1, 0);
    NoHit(s, k, e.getTime);
    OperationsKeepWellformed(s, k, answer, e.getTime, c.ttl, c.capacity);
    AddMeans(t, k, answer, e.addTime, c.ttl, c.capacity, Entry(k, r));
  }

  lemma NoHit(s: seq<Entry>, k: ConnectionKey, now: int)
    requires Distinct(s)
    ensures GetResult(s, k, now) == None <==> forall q :: Entry(k, q) in s ==> q.expired <= now
  {
    if GetResult(s, k, now).Some? {
      GetMeans(s, k, now, Entry(k, GetResult(s, k, now).value));
    } else {
      forall q | Entry(k, q) in s ensures q.expired <= now {
        GetMeans(s, k, now, Entry(k, q));
      }
    }
  }

  /**
   * The law of two calls: after a miss that the validator answered, a call of the same key within ttl of the Add finds
   * an unexpired entry, and that entry allows exactly what the validator allowed.
   */
  lemma SecondCallRepeats(s: seq<Entry>, k: ConnectionKey, e: Circumstance, c: Config, now: int)
    requires Wellformed(s, c.capacity) && c.capacity > 0
    requires forall q :: Entry(k, q) in s ==> q.expired <= e.getTime
    requires now < e.addTime + c.ttl
    ensures var t := ValidateState(s, k, true, e, c);
            && (exists q :: Entry(k, q) in t && now < q.expired)
            && forall q :: Entry(k, q) in t ==> q.allowed == e.answer && q.uid == -1
  {
    var t := ValidateState(s, k, true, e, c);
    MissIsRemembered(s, k, e, c, ValidationResult(e.answer, -1, e.addTime + c.ttl));
    forall q | Entry(k, q) in t ensures q.allowed == e.answer && q.uid == -1 {
      MissIsRemembered(s, k, e, c, q);
    }
  }

  /** What Get makes of an entry held under the key, in the words of Validate's contract. */
  lemma HitDecides(s: seq<Entry>, k: ConnectionKey, now: int, q: ValidationResult)
    requires Distinct(s)
    ensures Entry(k, q) in s && now < q.expired <==> GetResult(s, k, now) == Some(q)
  {
    GetMeans(s, k, now, Entry(k, q));
  }

  /** A hit leaves every entry as it was; without a validator a miss only drops an expired entry of its key. */
  lemma OtherCallsStoreNothing(
      s: seq<Entry>, k: ConnectionKey, hasValidator: bool, e: Circumstance, c: Config, x: Entry)
    requires Distinct(s) && (!hasValidator || exists q :: Entry(k, q) in s && e.getTime < q.expired)
    ensures x in ValidateState(s, k, hasValidator, e, c) <==> x in s && (x.key != k || e.getTime < x.result.expired)
  {
    GetMeans(s, k, e.getTime, x);
    NoHit(s, k, e.getTime);
  }

  class EngineHook {
    const cache: LRUCache
    var validator: Option<int>  // which callback is installed, if any

    ghost predicate Valid()
      reads this, cache, cache.list, cache.list.root, cache.list.nodes
    {
      cache.Valid()
    }

    ghost function Settings(): Config {
      Config(cache.capacity, cache.ttl)
    }

    constructor (capacity: int, ttlSeconds: int)
      ensures Valid() && cache.Entries() == [] && validator == None
      ensures Settings() == Config(capacity, ttlSeconds * 1_000_000_000)
      ensures fresh(cache) && fresh(cache.list) && fresh(cache.list.root) && cache.list.nodes == []
    {
      cache := new LRUCache(capacity, ttlSeconds * 1_000_000_000);
      validator := None;
    }

    method SetValidator(v: Option<int>)
      modifies this
      ensures validator == v
    {
      validator := v;
    }

    method Validate(srcIP: IP, srcPort: word, dstIP: IP, dstPort: word, proto: byte, env: Circumstance)
      returns (allowed: bool, uid: int)
      requires Valid()
      modifies cache`cache, cache`log, cache.list, cache.list.root, cache.list.nodes
      ensures Valid()
      ensures var k := NewConnectionKey(srcIP, srcPort, dstIP, dstPort, proto);
              cache.Entries() == ValidateState(old(cache.Entries()), k, validator.Some?, env, Settings())
      ensures var k, before := NewConnectionKey(srcIP, srcPort, dstIP, dstPort, proto), old(cache.Entries());
              allowed <==>
              (exists q :: Entry(k, q) in before && env.getTime < q.expired && q.allowed) ||
              ((forall q :: Entry(k, q) in before ==> q.expired <= env.getTime) && validator.Some? && env.answer)
      ensures var k, before := NewConnectionKey(srcIP, srcPort, dstIP, dstPort, proto), old(cache.Entries());
              (forall q :: Entry(k, q) in before && env.getTime < q.expired ==> uid == q.uid) &&
              ((forall q :: Entry(k, q) in before ==> q.expired <= env.getTime) ==> uid == -1)
      ensures forall e :: e in cache.list.nodes ==> e in old(cache.list.nodes) || fresh(e)
    {
      var key := NewConnectionKey(srcIP, srcPort, dstIP, dstPort, proto);
      ghost var before := cache.Entries();
      ExecWellformed(cache.log, Settings());
      NoHit(before, key, env.getTime);
      forall q
        ensures Entry(key, q) in before && env.getTime < q.expired <==> GetResult(before, key, env.getTime) == Some(q)
      {
        HitDecides(before, key, env.getTime, q);
      }
      var result, ok := cache.Get(key, env.getTime);
      if ok {
        return result.allowed, result.uid;
      }
      if validator == None {
        return false, -1;
      }
      allowed := env.answer;
      cache.Add(key, ValidationResult(allowed, -1, 0), env.addTime);
      uid := -1;
    }

    method Invalidate(srcIP: IP, srcPort: word, dstIP: IP, dstPort: word, proto: byte)
      requires Valid()
      modifies cache`cache, cache`log, cache.list, cache.list.root, cache.list.nodes
      ensures Valid()
      ensures cache.Entries() ==
              RemoveState(old(cache.Entries()), NewConnectionKey(srcIP, srcPort, dstIP, dstPort, proto))
      ensures forall e :: e in cache.list.nodes ==> e in old(cache.list.nodes)
    {
      cache.Remove(NewConnectionKey(srcIP, srcPort, dstIP, dstPort, proto));
    }
  }
}
