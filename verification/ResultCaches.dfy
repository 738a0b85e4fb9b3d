/** The result cache as the server keeps it: a map of elements and a doubly linked list
    of the same elements, front most recently used. Each method runs under the cache's
    mutex and is proved to do what `LruOrder` says it does to the entry order. */
module ResultCaches {
  import opened Outcomes
  import opened LruOrder

  /** A list element together with the cache entry it carries. */
  class Element {
    var prev: Element
    var next: Element
    const key: string
    var val: string
    var expires: int

    constructor (key: string, val: string, expires: int)
      ensures this.key == key && this.val == val && this.expires == expires
      ensures prev == this && next == this
    {
      this.key := key;
      this.val := val;
      this.expires := expires;
      prev, next := this, this;
    }
  }

  /** The doubly linked list, closed into a ring by a root element that holds no entry. */
  class List {
    const root: Element
    var len: nat
    ghost var nodes: seq<Element>
    /** Every element this list ever held, and the root. */
    ghost var Elements: set<Element>

    /** The ring position `i`, where both ends of `ns` continue at the root. */
    ghost function At(ns: seq<Element>, i: int): Element {
      if 0 <= i < |ns| then ns[i] else root
    }

    ghost predicate Linked(ns: seq<Element>)
      reads root, ns
    {
      && root.next == At(ns, 0)
      && root.prev == At(ns, |ns| - 1)
      && (forall i {:trigger ns[i].prev} :: 0 <= i < |ns| ==> ns[i].prev == At(ns, i - 1))
      && (forall i {:trigger ns[i].next} :: 0 <= i < |ns| ==> ns[i].next == At(ns, i + 1))
    }

    ghost predicate Valid()
      reads this, Elements
    {
      && len == |nodes|
      && root in Elements
      && (forall i :: 0 <= i < |nodes| ==> nodes[i] in Elements && nodes[i] != root)
      && (forall i, j :: 0 <= i < j < |nodes| ==> nodes[i] != nodes[j])
      && Linked(nodes)
    }

    constructor ()
      ensures Valid() && nodes == [] && fresh(Elements)
    {
      root := new Element("", "", 0);
      len := 0;
      nodes := [];
      Elements := {root};
    }

    method PushFront(e: Element)
      requires Valid() && (e !in nodes && e != root)
      modifies this, e`prev, e`next, Elements`prev, Elements`next
      ensures Valid() && nodes == [e] + old(nodes) && Elements == old(Elements) + {e}
    {
      e.prev := root;
      e.next := root.next;
      e.next.prev := e;
      root.next := e;
      len := len + 1;
      nodes := [e] + nodes;
      Elements := Elements + {e};
    }

    /** Every link follows `ns`, except that the neighbours of position `i` skip it. */
    ghost predicate Bypassed(ns: seq<Element>, i: nat)
      requires i < |ns|
      reads root, ns
    {
      && root.next == At(ns, if i == 0 then 1 else 0)
      && root.prev == At(ns, if i == |ns| - 1 then i - 1 else |ns| - 1)
      && (forall j {:trigger ns[j].prev} :: 0 <= j < |ns| && j != i ==>
          ns[j].prev == At(ns, if j == i + 1 then i - 1 else j - 1))
      && (forall j {:trigger ns[j].next} :: 0 <= j < |ns| && j != i ==>
          ns[j].next == At(ns, if j == i - 1 then i + 1 else j + 1))
    }

    lemma BypassedIsLinked(ns: seq<Element>, i: nat)
      requires i < |ns| && Bypassed(ns, i)
      ensures Linked(ns[..i] + ns[i + 1..])
    {
      var rest := ns[..i] + ns[i + 1..];
      forall j | 0 <= j < |rest|
        ensures rest[j].prev == At(rest, j - 1) && rest[j].next == At(rest, j + 1)
      {
        var k := if j < i then j else j + 1;
        assert rest[j] == ns[k];
      }
    }

    method Unlink(e: Element, ghost i: nat)
      requires Valid() && i < |nodes| && nodes[i] == e
      modifies Elements`prev, Elements`next
      ensures Bypassed(nodes, i)
    {
      assert At(nodes, i - 1) in Elements && At(nodes, i + 1) in Elements;
      e.prev.next := e.next;
      e.next.prev := e.prev;
    }

    method Remove(e: Element, ghost i: nat)
      requires Valid() && i < |nodes| && nodes[i] == e
      modifies this, Elements`prev, Elements`next
      ensures Valid() && nodes == old(nodes)[..i] + old(nodes)[i + 1..] && Elements == old(Elements)
    {
      Unlink(e, i);
      BypassedIsLinked(nodes, i);
      len := len - 1;
      nodes := nodes[..i] + nodes[i + 1..];
    }

    method MoveToFront(e: Element, ghost i: nat)
      requires Valid() && i < |nodes| && nodes[i] == e
      modifies this, Elements`prev, Elements`next
      ensures Valid() && nodes == [e] + (old(nodes)[..i] + old(nodes)[i + 1..]) && Elements == old(Elements)
    {
      if root.next != e {
        Remove(e, i);
        PushFront(e);
      }
    }
  }

  /** Map and list hold the same elements, one for each key. */
  ghost predicate Indexed(items: map<string, Element>, nodes: seq<Element>) {
    && (forall i :: 0 <= i < |nodes| ==> nodes[i].key in items && items[nodes[i].key] == nodes[i])
    && (forall k :: k in items ==> items[k] in nodes && items[k].key == k)
  }

  lemma IndexedWithout(items: map<string, Element>, nodes: seq<Element>, i: nat)
    requires Indexed(items, nodes) && i < |nodes|
    requires forall j, k :: 0 <= j < k < |nodes| ==> nodes[j] != nodes[k]
    ensures Indexed(items - {nodes[i].key}, nodes[..i] + nodes[i + 1..])
  {
    var left, rest := items - {nodes[i].key}, nodes[..i] + nodes[i + 1..];
    forall k | k in left ensures left[k] in rest {
      var j :| 0 <= j < |nodes| && nodes[j] == items[k];
      assert rest[if j < i then j else j - 1] == nodes[j];
    }
  }

  lemma IndexedMoved(items: map<string, Element>, nodes: seq<Element>, i: nat)
    requires Indexed(items, nodes) && i < |nodes|
    ensures Indexed(items, [nodes[i]] + (nodes[..i] + nodes[i + 1..]))
  {
    var moved := [nodes[i]] + (nodes[..i] + nodes[i + 1..]);
    forall k | k in items ensures items[k] in moved {
      var j :| 0 <= j < |nodes| && nodes[j] == items[k];
      assert moved[if j == i then 0 else if j < i then j + 1 else j] == nodes[j];
    }
  }

  lemma IndexedCons(items: map<string, Element>, nodes: seq<Element>, e: Element)
    requires Indexed(items, nodes) && e.key !in items
    ensures Indexed(items[e.key := e], [e] + nodes)
  {
  }

  class ResultCache {
    const ttl: int
    const max: nat
    var items: map<string, Element>
    const order: List
    /** The cache's abstract value. */
    ghost var Contents: Order

    /** The list spells out the abstract value. */
    ghost predicate Shows(ns: seq<Element>, contents: Order)
      reads ns`val, ns`expires
    {
      |contents| == |ns|
      && forall i {:trigger contents[i]} :: 0 <= i < |ns| ==> contents[i] == Entry(ns[i].key, ns[i].val, ns[i].expires)
    }

    lemma ShowsWithout(ns: seq<Element>, contents: Order, i: nat)
      requires Shows(ns, contents) && i < |ns|
      ensures Shows(ns[..i] + ns[i + 1..], contents[..i] + contents[i + 1..])
    {
    }

    lemma ShowsMoved(ns: seq<Element>, contents: Order, i: nat)
      requires Shows(ns, contents) && i < |ns|
      ensures Shows([ns[i]] + (ns[..i] + ns[i + 1..]), [contents[i]] + (contents[..i] + contents[i + 1..]))
    {
    }

    lemma ShowsCons(ns: seq<Element>, contents: Order, e: Element)
      requires Shows(ns, contents)
      ensures Shows([e] + ns, [Entry(e.key, e.val, e.expires)] + contents)
    {
    }

    ghost predicate Agree()
      reads this, order, order.Elements
    {
      && order.Valid()
      && Indexed(items, order.nodes)
      && Shows(order.nodes, Contents)
    }

    ghost predicate Valid()
      reads this, order, order.Elements
    {
      Agree() && |Contents| <= max
    }

    constructor (ttl: int, max: nat)
      ensures Valid() && Contents == [] && this.ttl == ttl && this.max == max
      ensures fresh(order) && fresh(order.Elements)
    {
      this.ttl := ttl;
      this.max := max;
      items := map[];
      order := new List();
      Contents := [];
    }

    lemma AgreeIsDistinct()
      requires Agree()
      ensures Distinct(Contents)
    {
      forall i, j | 0 <= i < j < |Contents| ensures Contents[i].key != Contents[j].key {
        assert order.nodes[i] != order.nodes[j];
      }
    }

    /** What the abstract lookup says about a key, and where the list holds it. */
    lemma Position(key: string) returns (i: nat)
      requires Agree()
      ensures key !in items ==> Lookup(Contents, key).None?
      ensures key in items ==>
                && i < |order.nodes| && order.nodes[i] == items[key]
                && Lookup(Contents, key) == Some(Entry(key, items[key].val, items[key].expires))
    {
      if key in items {
        i :| 0 <= i < |order.nodes| && order.nodes[i] == items[key];
        AgreeIsDistinct();
        LookupAt(Contents, i);
      } else {
        i := 0;
        forall j | 0 <= j < |Contents| ensures Contents[j].key != key {
          assert order.nodes[j].key in items;
        }
      }
    }

    lemma WithoutElement(i: nat)
      requires Agree() && i < |Contents|
      ensures Without(Contents, order.nodes[i].key) == Contents[..i] + Contents[i + 1..]
    {
      AgreeIsDistinct();
      WithoutAt(Contents, i);
    }

    method RemoveElement(e: Element, ghost i: nat)
      requires Agree() && i < |order.nodes| && order.nodes[i] == e
      modifies this, order, order.Elements`prev, order.Elements`next
      ensures Agree() && Contents == Without(old(Contents), e.key)
      ensures order.Elements == old(order.Elements)
    {
      WithoutElement(i);
      IndexedWithout(items, order.nodes, i);
      ShowsWithout(order.nodes, Contents, i);
      ghost var rest := Contents[..i] + Contents[i + 1..];
      order.Remove(e, i);
      items, Contents := items - {e.key}, rest;
    }

    method Touch(e: Element, ghost i: nat)
      requires Agree() && i < |order.nodes| && order.nodes[i] == e
      modifies this`Contents, order, order.Elements`prev, order.Elements`next
      ensures Agree() && Contents == [Entry(e.key, e.val, e.expires)] + Without(old(Contents), e.key)
      ensures |Contents| == old(|Contents|)
      ensures order.Elements == old(order.Elements)
    {
      WithoutElement(i);
      IndexedMoved(items, order.nodes, i);
      ShowsMoved(order.nodes, Contents, i);
      order.MoveToFront(e, i);
      Contents := [Contents[i]] + (Contents[..i] + Contents[i + 1..]);
    }

    method Overwrite(e: Element, ghost i: nat, val: string, expires: int)
      requires Agree() && i < |order.nodes| && order.nodes[i] == e
      modifies this`Contents, e`val, e`expires
      ensures Agree() && |Contents| == old(|Contents|) && e.val == val && e.expires == expires
      ensures Without(Contents, e.key) == Without(old(Contents), e.key)
    {
      AgreeIsDistinct();
      WithoutUpdated(Contents, i, Entry(e.key, val, expires));
      e.val, e.expires := val, expires;
      Contents := Contents[i := Entry(e.key, val, expires)];
    }

    method Refresh(e: Element, ghost i: nat, val: string, expires: int)
      requires Agree() && i < |order.nodes| && order.nodes[i] == e
      modifies this`Contents, order, order.Elements
      ensures Agree() && Contents == [Entry(e.key, val, expires)] + Without(old(Contents), e.key)
      ensures |Contents| == old(|Contents|)
      ensures order.Elements == old(order.Elements)
    {
      Overwrite(e, i, val, expires);
      Touch(e, i);
    }

    method Link(e: Element)
      requires Agree() && e.key !in items && e !in order.nodes && e != order.root
      modifies this, order, e`prev, e`next, order.Elements`prev, order.Elements`next
      ensures Agree() && Contents == [Entry(e.key, e.val, e.expires)] + old(Contents)
      ensures order.Elements == old(order.Elements) + {e}
    {
      IndexedCons(items, order.nodes, e);
      ShowsCons(order.nodes, Contents, e);
      order.PushFront(e);
      items := items[e.key := e];
      Contents := [Entry(e.key, e.val, e.expires)] + Contents;
    }

    method Add(key: string, val: string, expires: int)
      requires Agree() && key !in items
      modifies this, order, order.Elements`prev, order.Elements`next
      ensures Agree() && Contents == [Entry(key, val, expires)] + old(Contents)
      ensures fresh(order.Elements - old(order.Elements))
    {
      var e := new Element(key, val, expires);
      Link(e);
    }

    method EvictBack()
      requires Agree() && |Contents| > 0
      modifies this, order, order.Elements`prev, order.Elements`next
      ensures Agree() && Contents == old(Contents)[..|old(Contents)| - 1]
      ensures order.Elements == old(order.Elements)
    {
      WithoutElement(order.len - 1);
      RemoveElement(order.root.prev, order.len - 1);
    }

    method Evict()
      requires Agree()
      modifies this, order, order.Elements`prev, order.Elements`next
      ensures Valid() && Contents == First(old(Contents), max)
      ensures order.Elements == old(order.Elements)
    {
      while order.len > max
        invariant Agree() && Contents <= old(Contents)
        invariant |Contents| >= max || Contents == old(Contents)
        invariant order.Elements == old(order.Elements)
        decreases order.len
      {
        EvictBack();
      }
    }

    method Get(key: string, now: int) returns (hit: Option<string>)
      requires Valid()
      modifies this, order, order.Elements`prev, order.Elements`next
      ensures Valid() && (Contents, hit) == LruOrder.Get(old(Contents), key, now)
      ensures order.Elements == old(order.Elements)
    {
      ghost var i := Position(key);
      if key !in items {
        return None;
      }
      var e := items[key];
      if now > e.expires {
        RemoveElement(e, i);
        return None;
      }
      Touch(e, i);
      return Some(e.val);
    }

    method Put(key: string, val: string, now: int)
      requires Valid()
      modifies this, order, order.Elements
      ensures Valid() && Contents == LruOrder.Put(old(Contents), key, val, now, ttl, max)
      ensures fresh(order.Elements - old(order.Elements))
    {
      ghost var i := Position(key);
      if key in items {
        var e := items[key];
        Refresh(e, i, val, now + ttl);
        return;
      }
      Add(key, val, now + ttl);
      assert Contents == [Entry(key, val, now + ttl)] + old(Contents);
      Evict();
    }

    /** `do` with nothing running beside it; `fn` stands for the outcome the callback
        would have if it runs. */
    method Do(key: string, fn: Result<string, string>, t1: int, t2: int, t3: int)
      returns (answer: Result<string, string>)
      requires Valid()
      modifies this, order, order.Elements
      ensures Valid() && fresh(order.Elements - old(order.Elements))
      ensures var r := LruOrder.Do(old(Contents), key, fn, t1, t2, t3, ttl, max);
              Contents == r.order && answer == r.answer
    {
      var hit := Get(key, t1);
      if hit.Some? {
        return Ok(hit.value);
      }
      hit := Get(key, t2);
      if hit.Some? {
        return Ok(hit.value);
      }
      if fn.Err? {
        return fn;
      }
      Put(key, fn.value, t3);
      return fn;
    }
  }
}
