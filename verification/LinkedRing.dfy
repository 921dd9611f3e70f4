/** The sentinel ring behind the cache's list: a doubly linked circle through a root element. */
module LinkedRing {
  import opened Recency

  /** A list element together with the cache entry it carries. */
  class Element {
    var prev: Element?
    var next: Element?
    const key: ConnectionKey
    var result: ValidationResult

    constructor (key: ConnectionKey, result: ValidationResult)
      ensures this.key == key && this.result == result && prev == null && next == null
    {
      this.key, this.result, prev, next := key, result, null, null;
    }
  }

  const NO_KEY := ConnectionKey([], 0, [], 0, 0)

  class Ring {
    const root: Element
    var len: nat
    ghost var nodes: seq<Element>
    ghost var contents: seq<Entry>

    /** What follows, and what precedes, position i of ns on the circle. */
    ghost function After(ns: seq<Element>, i: int): Element {
      if 0 <= i + 1 < |ns| then ns[i + 1] else root
    }

    ghost function Before(ns: seq<Element>, i: int): Element {
      if 0 < i <= |ns| then ns[i - 1] else root
    }

    ghost predicate Linked(ns: seq<Element>)
      reads root, ns
    {
      && root.next == After(ns, -1)
      && root.prev == Before(ns, |ns|)
      && (forall i :: 0 <= i < |ns| ==> ns[i].next == After(ns, i))
      && (forall i :: 0 <= i < |ns| ==> ns[i].prev == Before(ns, i))
    }

    /** The circle with position i bypassed. */
    ghost predicate Bypassed(ns: seq<Element>, i: nat)
      requires i < |ns|
      reads root, ns
    {
      && root.next == (if i == 0 then After(ns, 0) else After(ns, -1))
      && root.prev == (if i == |ns| - 1 then Before(ns, i) else Before(ns, |ns|))
      && (forall j :: 0 <= j < |ns| && j != i ==> ns[j].next == (if j == i - 1 then After(ns, i) else After(ns, j)))
      && (forall j :: 0 <= j < |ns| && j != i ==> ns[j].prev == (if j == i + 1 then Before(ns, i) else Before(ns, j)))
    }

    ghost predicate Simple(ns: seq<Element>) {
      root !in ns && forall i, j :: 0 <= i < j < |ns| ==> ns[i] != ns[j]
    }

    static ghost predicate Carries(ns: seq<Element>, cs: seq<Entry>)
      reads ns
    {
      |ns| == |cs| && forall i :: 0 <= i < |ns| ==> cs[i] == Entry(ns[i].key, ns[i].result)
    }

    /** From position i on: no element twice, linked to its neighbours, carrying its entry. */
    ghost predicate Chain(ns: seq<Element>, cs: seq<Entry>, i: nat)
      reads root, ns
      decreases |ns| - i
    {
      i < |ns| ==>
        && i < |cs|
        && ns[i] != root && ns[i] !in ns[..i]
        && ns[i].next == After(ns, i) && ns[i].prev == Before(ns, i)
        && cs[i] == Entry(ns[i].key, ns[i].result)
        && Chain(ns, cs, i + 1)
    }

    ghost predicate Ends(ns: seq<Element>)
      reads root
    {
      root.next == After(ns, -1) && root.prev == Before(ns, |ns|)
    }

    ghost predicate Valid()
      reads this, root, nodes
    {
      len == |nodes| == |contents| && Ends(nodes) && Chain(nodes, contents, 0)
    }

    lemma {:induction false} ChainAt(ns: seq<Element>, cs: seq<Entry>, i: nat)
      requires Chain(ns, cs, i) && |ns| == |cs|
      ensures forall j :: i <= j < |ns| ==> ns[j].next == After(ns, j) && ns[j].prev == Before(ns, j)
      ensures forall j :: i <= j < |ns| ==> ns[j] != root && ns[j] !in ns[..j]
      ensures forall j :: i <= j < |ns| ==> cs[j] == Entry(ns[j].key, ns[j].result)
      decreases |ns| - i
    {
      if i < |ns| {
        ChainAt(ns, cs, i + 1);
      }
    }

    lemma Unpack()
      requires Valid()
      ensures Simple(nodes) && Linked(nodes) && Carries(nodes, contents)
    {
      ChainAt(nodes, contents, 0);
      forall i, j | 0 <= i < j < |nodes| ensures nodes[i] != nodes[j] {
        assert nodes[i] in nodes[..j];
      }
    }

    lemma {:induction false} MakeChain(ns: seq<Element>, cs: seq<Entry>, i: nat)
      requires Simple(ns) && Linked(ns) && Carries(ns, cs)
      ensures Chain(ns, cs, i)
      decreases |ns| - i
    {
      if i < |ns| {
        MakeChain(ns, cs, i + 1);
      }
    }

    constructor ()
      ensures Valid() && nodes == [] && contents == [] && fresh(root)
    {
      root := new Element(NO_KEY, ValidationResult(false, 0, 0));
      len, nodes, contents := 0, [], [];
      new;
      root.next, root.prev := root, root;
    }

    lemma CutAt(ns: seq<Element>, i: nat, j: nat)
      requires i < |ns| && j < |ns| - 1 && Bypassed(ns, i)
      ensures var r := RemoveAt(ns, i); r[j].next == After(r, j) && r[j].prev == Before(r, j)
    {
    }

    lemma CutIsSimple(ns: seq<Element>, i: nat)
      requires i < |ns| && Simple(ns)
      ensures Simple(RemoveAt(ns, i))
    {
    }

    lemma CutEnds(ns: seq<Element>, i: nat)
      requires i < |ns| && Bypassed(ns, i)
      ensures Ends(RemoveAt(ns, i))
    {
    }

    lemma CutCarries(ns: seq<Element>, cs: seq<Entry>, i: nat)
      requires i < |ns| && Carries(ns, cs)
      ensures Carries(RemoveAt(ns, i), RemoveAt(cs, i))
    {
    }

    lemma CutIsLinked(ns: seq<Element>, i: nat)
      requires i < |ns| && Bypassed(ns, i)
      ensures Linked(RemoveAt(ns, i))
    {
      var r := RemoveAt(ns, i);
      CutEnds(ns, i);
      forall j | 0 <= j < |r| ensures r[j].next == After(r, j) && r[j].prev == Before(r, j) {
        CutAt(ns, i, j);
      }
    }

    /** e.prev.next = e.next and e.next.prev = e.prev. */
    method Bypass(e: Element, ghost i: nat)
      requires Simple(nodes) && Linked(nodes) && i < |nodes| && nodes[i] == e
      modifies root`next, root`prev, nodes`next, nodes`prev
      ensures Bypassed(nodes, i)
      ensures forall j :: 0 <= j < |nodes| ==> nodes[j].result == old(nodes[j].result)
    {
      var p, n := e.prev, e.next;
      assert p == Before(nodes, i) && n == After(nodes, i);
      p.next := n;
      n.prev := p;
    }

    method BypassCarrying(e: Element, ghost i: nat)
      requires Simple(nodes) && Linked(nodes) && Carries(nodes, contents) && i < |nodes| && nodes[i] == e
      modifies root`next, root`prev, nodes`next, nodes`prev
      ensures Bypassed(nodes, i) && Carries(nodes, contents) && e.result == old(e.result)
    {
      Bypass(e, i);
    }

    method Unlink(e: Element, ghost i: nat)
      requires Valid() && i < |nodes| && nodes[i] == e
      modifies root`next, root`prev, nodes`next, nodes`prev
      ensures Chain(RemoveAt(nodes, i), RemoveAt(contents, i), 0) && Ends(RemoveAt(nodes, i))
      ensures e.result == old(e.result)
    {
      Unpack();
      CutIsSimple(nodes, i);
      BypassCarrying(e, i);
      CutIsLinked(nodes, i);
      CutCarries(nodes, contents, i);
      MakeChain(RemoveAt(nodes, i), RemoveAt(contents, i), 0);
    }

    /** list.Remove. */
    method Remove(e: Element, ghost i: nat)
      requires Valid() && i < |nodes| && nodes[i] == e
      modifies this, root`next, root`prev, nodes`next, nodes`prev
      ensures Valid() && nodes == RemoveAt(old(nodes), i) && contents == RemoveAt(old(contents), i)
      ensures e.result == old(e.result)
    {
      Unlink(e, i);
      len := len - 1;
      nodes, contents := RemoveAt(nodes, i), RemoveAt(contents, i);
    }

    lemma ConsAt(e: Element, ns: seq<Element>, j: nat)
      requires j < |ns|
      ensures var r := [e] + ns; r[j + 1] == ns[j] && After(r, j + 1) == After(ns, j)
      ensures Before([e] + ns, j + 1) == if j == 0 then e else Before(ns, j)
    {
    }

    lemma ConsIsLinked(e: Element, ns: seq<Element>)
      requires root.next == e && e.prev == root && e.next == After(ns, -1)
      requires root.prev == (if ns == [] then e else Before(ns, |ns|))
      requires forall i :: 0 <= i < |ns| ==> ns[i].next == After(ns, i)
      requires forall i :: 0 <= i < |ns| ==> ns[i].prev == if i == 0 then e else Before(ns, i)
      ensures Linked([e] + ns)
    {
      var r := [e] + ns;
      forall j | 0 <= j < |r| ensures r[j].next == After(r, j) && r[j].prev == Before(r, j) {
        if j > 0 {
          ConsAt(e, ns, j - 1);
        }
      }
    }

    method Splice(e: Element)
      requires Simple(nodes) && Linked(nodes) && e != root && e !in nodes
      modifies e`next, e`prev, root`next, root`prev, nodes`prev
      ensures Linked([e] + nodes)
      ensures forall j :: 0 <= j < |nodes| ==> nodes[j].result == old(nodes[j].result)
      ensures e.result == old(e.result)
    {
      var first := root.next;
      e.prev, e.next := root, first;
      root.next := e;
      first.prev := e;
      ConsIsLinked(e, nodes);
    }

    lemma ConsIsSimple(e: Element, ns: seq<Element>)
      requires Simple(ns) && e != root && e !in ns
      ensures Simple([e] + ns)
    {
    }

    lemma ConsCarries(e: Element, ns: seq<Element>, cs: seq<Entry>)
      requires Carries(ns, cs)
      ensures Carries([e] + ns, [Entry(e.key, e.result)] + cs)
    {
    }

    method SpliceCarrying(e: Element)
      requires Simple(nodes) && Linked(nodes) && Carries(nodes, contents) && e != root && e !in nodes
      modifies e`next, e`prev, root`next, root`prev, nodes`prev
      ensures Linked([e] + nodes) && Carries(nodes, contents) && e.result == old(e.result)
    {
      Splice(e);
    }

    method Link(e: Element)
      requires Valid() && e != root && e !in nodes
      modifies e`next, e`prev, root`next, root`prev, nodes`prev
      ensures Chain([e] + nodes, [Entry(e.key, e.result)] + contents, 0) && Ends([e] + nodes)
      ensures e.result == old(e.result)
    {
      Unpack();
      ConsIsSimple(e, nodes);
      SpliceCarrying(e);
      ConsCarries(e, nodes, contents);
      MakeChain([e] + nodes, [Entry(e.key, e.result)] + contents, 0);
    }

    /** list.PushFront for an element that is not in the ring. */
    method PushFront(e: Element)
      requires Valid() && e != root && e !in nodes
      modifies this, e`next, e`prev, root`next, root`prev, nodes`prev
      ensures Valid() && nodes == [e] + old(nodes)
      ensures contents == [Entry(e.key, old(e.result))] + old(contents)
    {
      Link(e);
      len := len + 1;
      nodes, contents := [e] + nodes, [Entry(e.key, e.result)] + contents;
    }

    /** entry.result = result, through the element at position i. */
    method SetResult(e: Element, ghost i: nat, result: ValidationResult)
      requires Valid() && i < |nodes| && nodes[i] == e
      modifies this`contents, e`result
      ensures Valid() && contents == old(contents)[i := Entry(e.key, result)]
    {
      Unpack();
      Store(e, i, result);
      MakeChain(nodes, contents[i := Entry(e.key, result)], 0);
      contents := contents[i := Entry(e.key, result)];
    }

    method Store(e: Element, ghost i: nat, result: ValidationResult)
      requires Simple(nodes) && Linked(nodes) && Carries(nodes, contents) && i < |nodes| && nodes[i] == e
      modifies e`result
      ensures Linked(nodes) && Carries(nodes, contents[i := Entry(e.key, result)])
    {
      e.result := result;
    }

    lemma NotLeftIn(i: nat)
      requires Valid() && i < |nodes|
      ensures nodes[i] != root && nodes[i] !in RemoveAt(nodes, i)
    {
      Unpack();
    }

    lemma CarriedEntry(i: nat)
      requires Valid() && i < |nodes|
      ensures contents[i] == Entry(nodes[i].key, nodes[i].result)
    {
      Unpack();
    }

    lemma CutFirst(ns: seq<Element>, cs: seq<Entry>)
      requires |ns| == |cs| > 0
      ensures ns == [ns[0]] + RemoveAt(ns, 0) && cs == [cs[0]] + RemoveAt(cs, 0)
    {
    }

    lemma FrontIsFirst(i: nat)
      requires Valid() && i < |nodes| && root.next == nodes[i]
      ensures i == 0 && nodes == [nodes[0]] + RemoveAt(nodes, 0) && contents == [contents[0]] + RemoveAt(contents, 0)
    {
      CutFirst(nodes, contents);
      SimpleIndex(i, 0);
    }

    lemma SimpleIndex(i: nat, j: nat)
      requires Valid() && i < |nodes| && j < |nodes| && nodes[i] == nodes[j]
      ensures i == j
    {
      Unpack();
    }

    /** list.MoveToFront. */
    method MoveToFront(e: Element, ghost i: nat)
      requires Valid() && i < |nodes| && nodes[i] == e
      modifies this, root`next, root`prev, nodes`next, nodes`prev
      ensures Valid() && nodes == [e] + RemoveAt(old(nodes), i)
      ensures contents == [old(contents)[i]] + RemoveAt(old(contents), i)
    {
      if root.next == e {
        FrontIsFirst(i);
        return;
      }
      CarriedEntry(i);
      NotLeftIn(i);
      Remove(e, i);
      PushFront(e);
    }

    /** list.Back. */
    method Back() returns (e: Element?)
      requires Valid()
      ensures e == if nodes == [] then null else nodes[|nodes| - 1]
    {
      e := if len == 0 then null else root.prev;
    }
  }
}
