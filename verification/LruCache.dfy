/** LRUCache of go/connection.go: a map and a linked ring that together represent one recency list. */
module LruCache {
  import opened Recency
  import opened LinkedRing
  import opened RecencyRuns

  type Index = map<ConnectionKey, Element>

  /** The map holds exactly the nodes, each under its own key. */
  ghost predicate Indexed(cache: Index, nodes: seq<Element>) {
    && (forall i :: 0 <= i < |nodes| ==> nodes[i].key in cache && cache[nodes[i].key] == nodes[i])
    && (forall k :: k in cache ==> cache[k] in nodes && cache[k].key == k)
  }

  lemma Locate(cache: Index, list: Ring, k: ConnectionKey)
    requires list.Valid() && Indexed(cache, list.nodes)
    ensures k in cache <==> Has(list.contents, k)
    ensures k in cache ==> list.nodes[Find(list.contents, k)] == cache[k]
  {
    list.Unpack();
    if k in cache {
      var i :| 0 <= i < |list.nodes| && list.nodes[i] == cache[k];
      assert list.contents[i].key == k;
      assert list.nodes[Find(list.contents, k)].key == k;
    }
  }

  lemma CutIndexed(cache: Index, nodes: seq<Element>, i: nat)
    requires i < |nodes| && Indexed(cache, nodes)
    requires nodes[i] !in RemoveAt(nodes, i)
    ensures Indexed(cache - {nodes[i].key}, RemoveAt(nodes, i))
  {
    var r := RemoveAt(nodes, i);
    forall j | 0 <= j < |r| ensures r[j].key != nodes[i].key {
      assert r[j] == nodes[if j < i then j else j + 1];
    }
    forall k | k in cache - {nodes[i].key} ensures cache[k] in r {
      var j :| 0 <= j < |nodes| && nodes[j] == cache[k];
      assert r[if j < i then j else j - 1] == nodes[j];
    }
  }

  lemma FrontIndexed(cache: Index, rest: seq<Element>, e: Element)
    requires Indexed(cache, rest) && e.key !in cache
    ensures Indexed(cache[e.key := e], [e] + rest)
  {
    var c, r := cache[e.key := e], [e] + rest;
    forall i | 0 <= i < |r| ensures r[i].key in c && c[r[i].key] == r[i] {
      if i > 0 {
        assert r[i] == rest[i - 1];
      }
    }
  }

  lemma MovedIndexed(cache: Index, nodes: seq<Element>, i: nat)
    requires i < |nodes| && Indexed(cache, nodes)
    ensures Indexed(cache, [nodes[i]] + RemoveAt(nodes, i))
  {
    var r := [nodes[i]] + RemoveAt(nodes, i);
    forall j | 0 <= j < |r| ensures r[j] in nodes {
    }
    forall j | 0 <= j < |nodes| ensures nodes[j] in r {
      assert nodes[j] == r[if j == i then 0 else if j < i then j + 1 else j];
    }
  }

  class LRUCache {
    const capacity: int
    const ttl: int
    const list: Ring
    var cache: Index
    ghost var log: seq<Op>  // every operation so far

    /** The entries the cache stands for, most recently touched first. */
    ghost function Entries(): seq<Entry>
      reads this, list
    {
      list.contents
    }

    /** The map and the ring agree; the length may exceed the capacity. */
    ghost predicate Agree()
      reads this, list, list.root, list.nodes
    {
      list.Valid() && Indexed(cache, list.nodes)
    }

    ghost predicate Valid()
      reads this, list, list.root, list.nodes
    {
      Agree() && Entries() == Exec(log, Config(capacity, ttl))
    }

    constructor (capacity: int, ttl: int)
      ensures Valid() && Entries() == [] && log == [] && this.capacity == capacity && this.ttl == ttl
      ensures fresh(list) && fresh(list.root) && list.nodes == []
    {
      this.capacity, this.ttl := capacity, ttl;
      list := new Ring();
      cache, log := map[], [];
    }

    /** removeElement: out of the map and out of the ring. */
    method RemoveElement(elem: Element, ghost i: nat)
      requires Agree() && i < |list.nodes| && list.nodes[i] == elem
      modifies this`cache, list, list.root, list.nodes
      ensures Agree() && list.nodes == RemoveAt(old(list.nodes), i) && Entries() == RemoveAt(old(Entries()), i)
      ensures forall e :: e in list.nodes ==> e in old(list.nodes)
    {
      list.NotLeftIn(i);
      CutIndexed(cache, list.nodes, i);
      cache := cache - {elem.key};
      list.Remove(elem, i);
    }

    method Touch(elem: Element, ghost i: nat)
      requires Agree() && i < |list.nodes| && list.nodes[i] == elem
      modifies list, list.root, list.nodes
      ensures Agree() && list.nodes == [elem] + RemoveAt(old(list.nodes), i)
      ensures Entries() == [old(Entries())[i]] + RemoveAt(old(Entries()), i)
      ensures forall e :: e in list.nodes ==> e in old(list.nodes)
    {
      MovedIndexed(cache, list.nodes, i);
      list.MoveToFront(elem, i);
    }

    /** The body of Get, on what the cache stands for. */
    method Lookup(key: ConnectionKey, now: int) returns (result: ValidationResult, ok: bool)
      requires Agree()
      modifies this`cache, list, list.root, list.nodes
      ensures Agree() && Entries() == GetState(old(Entries()), key, now)
      ensures ok <==> GetResult(old(Entries()), key, now).Some?
      ensures result == if ok then GetResult(old(Entries()), key, now).value else ValidationResult(false, 0, 0)
      ensures forall e :: e in list.nodes ==> e in old(list.nodes)
    {
      result, ok := ValidationResult(false, 0, 0), false;
      Locate(cache, list, key);
      if key in cache {
        GetOfPresent(Entries(), key, now);
        result, ok := Visit(cache[key], Find(Entries(), key), now);
      }
    }

    /** An element that was found: touched and returned while it is fresh, dropped once it has expired. */
    method Visit(elem: Element, ghost i: nat, now: int) returns (result: ValidationResult, ok: bool)
      requires Agree() && i < |list.nodes| && list.nodes[i] == elem
      modifies this`cache, list, list.root, list.nodes
      ensures Agree() && (ok <==> now < old(Entries())[i].result.expired)
      ensures Entries() == (if ok then [old(Entries())[i]] else []) + RemoveAt(old(Entries()), i)
      ensures result == if ok then old(Entries())[i].result else ValidationResult(false, 0, 0)
      ensures forall e :: e in list.nodes ==> e in old(list.nodes)
    {
      list.CarriedEntry(i);
      if now < elem.result.expired {
        result := elem.result;
        Touch(elem, i);
        return result, true;
      }
      RemoveElement(elem, i);
      return ValidationResult(false, 0, 0), false;
    }

    method Get(key: ConnectionKey, now: int) returns (result: ValidationResult, ok: bool)
      requires Valid()
      modifies this`cache, this`log, list, list.root, list.nodes
      ensures Valid() && Entries() == GetState(old(Entries()), key, now) && log == old(log) + [GetOp(key, now)]
      ensures ok <==> GetResult(old(Entries()), key, now).Some?
      ensures result == if ok then GetResult(old(Entries()), key, now).value else ValidationResult(false, 0, 0)
      ensures forall e :: e in list.nodes ==> e in old(list.nodes)
    {
      ExecOneMore(log, GetOp(key, now), Config(capacity, ttl));
      result, ok := Lookup(key, now);
      log := log + [GetOp(key, now)];
    }

    /** The body of Add, on what the cache stands for. */
    method Store(key: ConnectionKey, outcome: ValidationResult, now: int)
      requires Agree() && |Entries()| <= Max0(capacity)
      modifies this`cache, list, list.root, list.nodes
      ensures Agree() && Entries() == AddState(old(Entries()), key, outcome, now, ttl, capacity)
      ensures forall e :: e in list.nodes ==> e in old(list.nodes) || fresh(e)
    {
      Locate(cache, list, key);
      var result := outcome.(expired := now + ttl);
      if key in cache {
        Update(cache[key], Find(Entries(), key), result);
      } else {
        Insert(key, result);
      }
    }

    method Add(key: ConnectionKey, outcome: ValidationResult, now: int)
      requires Valid()
      modifies this`cache, this`log, list, list.root, list.nodes
      ensures Valid() && Entries() == AddState(old(Entries()), key, outcome, now, ttl, capacity)
      ensures log == old(log) + [AddOp(key, outcome, now)]
      ensures forall e :: e in list.nodes ==> e in old(list.nodes) || fresh(e)
    {
      ExecWellformed(log, Config(capacity, ttl));
      ExecOneMore(log, AddOp(key, outcome, now), Config(capacity, ttl));
      Store(key, outcome, now);
      log := log + [AddOp(key, outcome, now)];
    }

    method Update(elem: Element, ghost i: nat, result: ValidationResult)
      requires Agree() && i < |list.nodes| && list.nodes[i] == elem
      modifies this`cache, list, list.root, list.nodes
      ensures Agree() && list.nodes == [elem] + RemoveAt(old(list.nodes), i)
      ensures Entries() == [Entry(elem.key, result)] + RemoveAt(old(Entries()), i)
    {
      list.SetResult(elem, i, result);
      Touch(elem, i);
    }

    method PushNew(key: ConnectionKey, result: ValidationResult)
      requires Agree() && key !in cache
      modifies this`cache, list, list.root, list.nodes
      ensures Agree() && Entries() == [Entry(key, result)] + old(Entries())
      ensures |list.nodes| > 0 && fresh(list.nodes[0]) && list.nodes[1..] == old(list.nodes)
    {
      var elem := new Element(key, result);
      FrontIndexed(cache, list.nodes, elem);
      list.PushFront(elem);
      cache := cache[key := elem];
    }

    method Insert(key: ConnectionKey, result: ValidationResult)
      requires Agree() && key !in cache
      modifies this`cache, list, list.root, list.nodes
      ensures Agree()
      ensures var t := [Entry(key, result)] + old(Entries());
              Entries() == if |t| > Max0(capacity) then t[..|t| - 1] else t
      ensures forall e :: e in list.nodes ==> e in old(list.nodes) || fresh(e)
    {
      PushNew(key, result);
      EvictOverflow();
    }

    method EvictOverflow()
      requires Agree()
      modifies this`cache, list, list.root, list.nodes
      ensures Agree()
      ensures var t := old(Entries()); Entries() == if |t| > Max0(capacity) then t[..|t| - 1] else t
      ensures forall e :: e in list.nodes ==> e in old(list.nodes)
    {
      if list.len > capacity {
        var oldest := list.Back();
        if oldest != null {
          RemoveElement(oldest, |list.nodes| - 1);
        }
      }
    }

    method Remove(key: ConnectionKey)
      requires Valid()
      modifies this`cache, this`log, list, list.root, list.nodes
      ensures Valid() && Entries() == RemoveState(old(Entries()), key) && log == old(log) + [RemoveOp(key)]
      ensures forall e :: e in list.nodes ==> e in old(list.nodes)
    {
      ExecOneMore(log, RemoveOp(key), Config(capacity, ttl));
      Drop(key);
      log := log + [RemoveOp(key)];
    }

    /** The body of Remove, on what the cache stands for. */
    method Drop(key: ConnectionKey)
      requires Agree()
      modifies this`cache, list, list.root, list.nodes
      ensures Agree() && Entries() == RemoveState(old(Entries()), key)
      ensures forall e :: e in list.nodes ==> e in old(list.nodes)
    {
      Locate(cache, list, key);
      if key in cache {
        RemoveElement(cache[key], Find(Entries(), key));
      }
    }

    method Len() returns (n: nat)
      requires Valid()
      ensures n == |Entries()| == |cache| && n <= Max0(capacity)
    {
      n := list.len;
      ExecWellformed(log, Config(capacity, ttl));
      list.Unpack();
      CacheSize(cache, list.nodes);
    }
  }

  lemma {:induction false} CacheSize(cache: Index, nodes: seq<Element>)
    requires Indexed(cache, nodes) && forall i, j :: 0 <= i < j < |nodes| ==> nodes[i] != nodes[j]
    ensures |cache| == |nodes|
    decreases |nodes|
  {
    if nodes == [] {
      assert cache == map[];
    } else {
      CutIndexed(cache, nodes, 0);
      CacheSize(cache - {nodes[0].key}, RemoveAt(nodes, 0));
      OneKeyLess(cache, nodes[0].key);
    }
  }

  lemma OneKeyLess(cache: Index, k: ConnectionKey)
    requires k in cache
    ensures |cache| == |cache - {k}| + 1
  {
    assert cache.Keys == (cache - {k}).Keys + {k};
    assert |cache.Keys| == |(cache - {k}).Keys| + 1;
  }
}
