/** The O(1) LRU map of server/cacheEngine.ts: a hash map whose nodes are also doubly linked by recency. */
module LruMap {
  import opened Wrappers
  import opened LruSpec

  class LRUNode<K, V> {
    const key: K
    var value: V
    var prev: LRUNode?<K, V>
    var next: LRUNode?<K, V>

    constructor (key: K, value: V, next: LRUNode?<K, V>)
      ensures this.key == key && this.value == value && this.prev == null && this.next == next
    {
      this.key, this.value, this.prev, this.next := key, value, null, next;
    }
  }

  // Forward and backward links agree, and head and tail are the ends.
  ghost predicate Linked<K, V>(nodes: seq<LRUNode<K, V>>, head: LRUNode?<K, V>, tail: LRUNode?<K, V>)
    reads nodes`prev, nodes`next
  {
    && Injective(nodes)
    && (forall i {:trigger nodes[i].prev} | 0 <= i < |nodes| :: nodes[i].prev == if i == 0 then null else nodes[i - 1])
    && (forall i {:trigger nodes[i].next} | 0 <= i < |nodes| ::
          nodes[i].next == if i == |nodes| - 1 then null else nodes[i + 1])
    && head == (if nodes == [] then null else nodes[0])
    && tail == (if nodes == [] then null else nodes[|nodes| - 1])
  }

  // List nodes and map entries are in bijection.
  ghost predicate Mapped<K, V>(nodes: seq<LRUNode<K, V>>, index: map<K, LRUNode<K, V>>) {
    && index.Values == Members(nodes)
    && (forall k | k in index :: index[k].key == k)
    && |index| == |nodes|
  }

  // The iteration order lists every key once.
  ghost predicate Iterated<K, V>(order: seq<K>, index: map<K, LRUNode<K, V>>) {
    NoRepeats(order) && Members(order) == index.Keys
  }

  // The entries are what the nodes hold.
  ghost predicate Shown<K, V>(nodes: seq<LRUNode<K, V>>, entries: seq<Entry<K, V>>)
    reads nodes`value
  {
    && |entries| == |nodes|
    && forall i | 0 <= i < |nodes| :: entries[i] == Entry(nodes[i].key, nodes[i].value)
  }

  lemma KeyOf<K, V>(nodes: seq<LRUNode<K, V>>, index: map<K, LRUNode<K, V>>, i: nat)
    requires Mapped(nodes, index) && i < |nodes|
    ensures nodes[i].key in index && index[nodes[i].key] == nodes[i]
  {
    assert nodes[i] in Members(nodes);
    var k :| k in index && index[k] == nodes[i];
  }

  lemma NodeOf<K, V>(nodes: seq<LRUNode<K, V>>, index: map<K, LRUNode<K, V>>, k: K) returns (i: nat)
    requires Mapped(nodes, index) && k in index
    ensures i < |nodes| && nodes[i] == index[k] && nodes[i].key == k
  {
    assert index[k] in index.Values;
    i :| 0 <= i < |nodes| && nodes[i] == index[k];
  }

  lemma MappedMoved<K, V>(nodes: seq<LRUNode<K, V>>, index: map<K, LRUNode<K, V>>, i: nat)
    requires Mapped(nodes, index) && i < |nodes|
    ensures Mapped([nodes[i]] + Cut(nodes, i), index)
    ensures Members([nodes[i]] + Cut(nodes, i)) == Members(nodes)
  {
    CutMembers(nodes, i);
  }

  lemma ValuesAdded<K, V>(index: map<K, V>, k: K, v: V)
    requires k !in index
    ensures index[k := v].Values == index.Values + {v} && |index[k := v]| == |index| + 1
  {
    var index' := index[k := v];
    forall x | x in index.Values + {v}
      ensures x in index'.Values
    {
      if x in index.Values {
        var y :| y in index && index[y] == x;
        assert index'[y] == x;
      } else {
        assert index'[k] == x;
      }
    }
  }

  lemma MembersAdded<T>(s: seq<T>, x: T)
    ensures Members([x] + s) == Members(s) + {x} && Members(s + [x]) == Members(s) + {x}
  {
  }

  lemma NewNode<K, V>(nodes: seq<LRUNode<K, V>>, index: map<K, LRUNode<K, V>>, node: LRUNode<K, V>)
    requires Mapped(nodes, index) && node.key !in index
    ensures node !in nodes
  {
    if node in nodes {
      var i :| 0 <= i < |nodes| && nodes[i] == node;
      KeyOf(nodes, index, i);
    }
  }

  lemma MappedAdded<K, V>(nodes: seq<LRUNode<K, V>>, index: map<K, LRUNode<K, V>>, node: LRUNode<K, V>)
    requires Mapped(nodes, index) && node.key !in index
    ensures Mapped([node] + nodes, index[node.key := node])
  {
    ValuesAdded(index, node.key, node);
    MembersAdded(nodes, node);
  }

  lemma IteratedAdded<K, V>(order: seq<K>, index: map<K, LRUNode<K, V>>, k: K, node: LRUNode<K, V>)
    requires Iterated(order, index) && k !in index
    ensures Iterated(order + [k], index[k := node])
  {
    MembersAdded(order, k);
    assert k !in Members(order);
  }

  lemma IteratedCut<K, V>(order: seq<K>, index: map<K, LRUNode<K, V>>, k: K)
    requires Iterated(order, index) && k in index
    ensures Iterated(Without(order, k), index - {k}) && |index - {k}| == |index| - 1
  {
    WithoutMembers(order, k);
    assert (index - {k}).Keys == index.Keys - {k};
    assert |(index - {k}).Keys| == |index - {k}|;
  }

  lemma MappedCut<K, V>(nodes: seq<LRUNode<K, V>>, index: map<K, LRUNode<K, V>>, order: seq<K>, i: nat)
    requires Mapped(nodes, index) && Iterated(order, index) && i < |nodes| && Injective(nodes)
    ensures Mapped(Cut(nodes, i), index - {nodes[i].key}) &&
            Iterated(Without(order, nodes[i].key), index - {nodes[i].key})
    ensures Members(Cut(nodes, i)) <= Members(nodes)
  {
    var k := nodes[i].key;
    CutMembers(nodes, i);
    KeyOf(nodes, index, i);
    IteratedCut(order, index, k);
    assert Members(Cut(nodes, i)) == Members(nodes) - {nodes[i]};
    forall v | v in index.Values && v != nodes[i]
      ensures v in (index - {k}).Values
    {
      var x :| x in index && index[x] == v;
      assert x in index - {k} && (index - {k})[x] == v;
    }
    assert (index - {k}).Values == index.Values - {nodes[i]};
  }

  lemma ShownCut<K, V>(nodes: seq<LRUNode<K, V>>, entries: seq<Entry<K, V>>, i: nat)
    requires Shown(nodes, entries) && i < |nodes|
    ensures Shown(Cut(nodes, i), Cut(entries, i))
  {
  }

  lemma ShownFront<K, V>(nodes: seq<LRUNode<K, V>>, entries: seq<Entry<K, V>>, node: LRUNode<K, V>)
    requires Shown(nodes, entries)
    ensures Shown([node] + nodes, [Entry(node.key, node.value)] + entries)
  {
  }

  // The map answers for exactly the keys on the list.
  lemma Located<K, V>(nodes: seq<LRUNode<K, V>>, index: map<K, LRUNode<K, V>>, entries: seq<Entry<K, V>>, key: K)
    returns (i: nat)
    requires Injective(nodes) && Mapped(nodes, index) && Shown(nodes, entries)
    ensures Distinct(entries) && (key in index <==> Has(entries, key))
    ensures key !in index ==> Remove(entries, key) == entries
    ensures key in index ==>
              i < |nodes| && nodes[i] == index[key] && entries[i] == Entry(key, index[key].value) &&
              Find(entries, key) == Some(index[key].value) && Remove(entries, key) == Cut(entries, i)
  {
    i := 0;
    forall a, b | 0 <= a < b < |entries|
      ensures entries[a].key != entries[b].key
    {
      KeyOf(nodes, index, a);
      KeyOf(nodes, index, b);
    }
    if key in index {
      i := NodeOf(nodes, index, key);
      RemoveAt(entries, i);
    } else {
      forall j | 0 <= j < |entries|
        ensures entries[j].key != key
      {
        KeyOf(nodes, index, j);
      }
      RemoveAbsent(entries, key);
    }
  }

  // What a get makes of the list.
  lemma LocatedGet<K, V>(nodes: seq<LRUNode<K, V>>, index: map<K, LRUNode<K, V>>, entries: seq<Entry<K, V>>, key: K)
    returns (i: nat)
    requires Injective(nodes) && Mapped(nodes, index) && Shown(nodes, entries)
    ensures Find(entries, key) == if key in index then Some(index[key].value) else None
    ensures key !in index ==> AfterGet(entries, key) == entries
    ensures key in index ==>
              i < |nodes| && nodes[i] == index[key] && AfterGet(entries, key) == [entries[i]] + Cut(entries, i)
  {
    i := Located(nodes, index, entries, key);
  }

  // What a set makes of the list, and what it evicts.
  lemma LocatedSet<K, V>(nodes: seq<LRUNode<K, V>>, index: map<K, LRUNode<K, V>>, entries: seq<Entry<K, V>>,
                         key: K, value: V, cap: nat)
    returns (i: nat)
    requires Injective(nodes) && Mapped(nodes, index) && Shown(nodes, entries) && |nodes| <= cap
    ensures key in index <==> Has(entries, key)
    ensures key in index ==>
              i < |nodes| && nodes[i] == index[key] && EvictedBy(entries, key, value, cap) == None &&
              AfterSet(entries, key, value, cap) == [Entry(key, value)] + Cut(entries, i)
    ensures key !in index ==>
              var t := [Entry(key, value)] + entries;
              AfterSet(entries, key, value, cap) == (if |t| > cap then t[..|t| - 1] else t) &&
              EvictedBy(entries, key, value, cap) == if |t| > cap then Some(t[|t| - 1].key) else None
  {
    i := Located(nodes, index, entries, key);
  }

  class LRUMap<K(==), V> {
    var index: map<K, LRUNode<K, V>>
    var order: seq<K> // the order in which the map iterates its keys: first inserted first
    var head: LRUNode?<K, V> // most recent
    var tail: LRUNode?<K, V> // least recent
    var evictions: nat
    const maxSize: nat

    ghost var nodes: seq<LRUNode<K, V>> // the list from head to tail
    ghost var entries: seq<Entry<K, V>> // what the list says

    ghost predicate Coherent()
      reads this, nodes
    {
      Linked(nodes, head, tail) && Mapped(nodes, index) && Iterated(order, index) && Shown(nodes, entries)
    }

    ghost predicate Valid()
      reads this, nodes
    {
      Coherent() && |nodes| <= maxSize
    }

    constructor (maxSize: nat)
      ensures Valid() && nodes == [] && order == [] && entries == [] && this.maxSize == maxSize && evictions == 0
    {
      this.maxSize := maxSize;
      index, order, head, tail, evictions := map[], [], null, null, 0;
      nodes, entries := [], [];
    }

    method MapAdd(node: LRUNode<K, V>)
      modifies this`index, this`order
      ensures index == old(index)[node.key := node] && order == old(order) + [node.key]
    {
      index := index[node.key := node];
      order := order + [node.key];
    }

    method MapDelete(key: K)
      modifies this`index, this`order
      ensures index == old(index) - {key} && order == Without(old(order), key)
    {
      index := index - {key};
      order := Without(order, key);
    }

    // Cuts nodes[i] out of the list; the map still holds it.
    method Unlink(node: LRUNode<K, V>, ghost i: nat)
      requires Linked(nodes, head, tail) && i < |nodes| && nodes[i] == node
      modifies this`head, this`tail, this`nodes, nodes`prev, nodes`next
      ensures Linked(nodes, head, tail) && nodes == old(nodes)[..i] + old(nodes)[i + 1..]
      ensures node.prev == null && node.next == null
    {
      assert node.prev == if i == 0 then null else nodes[i - 1];
      assert node.next == if i == |nodes| - 1 then null else nodes[i + 1];
      if node.prev != null {
        node.prev.next := node.next;
      } else {
        head := node.next;
      }
      if node.next != null {
        node.next.prev := node.prev;
      } else {
        tail := node.prev;
      }
      node.prev, node.next := null, null;
      nodes := nodes[..i] + nodes[i + 1..];
    }

    // Makes a detached node the head of the list.
    method PushFront(node: LRUNode<K, V>)
      requires Linked(nodes, head, tail) && node !in nodes && node.prev == null && node.next == head
      modifies this`head, this`tail, this`nodes, nodes`prev
      ensures Linked(nodes, head, tail) && nodes == [node] + old(nodes)
    {
      assert head != null ==> nodes[0].prev == null;
      if head != null {
        head.prev := node;
      }
      head := node;
      if tail == null {
        tail := node;
      }
      nodes := [node] + nodes;
    }

    method Promote(node: LRUNode<K, V>, ghost i: nat)
      requires Linked(nodes, head, tail) && i < |nodes| && nodes[i] == node
      modifies this`head, this`tail, this`nodes, nodes`prev, nodes`next
      ensures Linked(nodes, head, tail) && nodes == [node] + Cut(old(nodes), i)
    {
      if node == head {
        assert [node] + Cut(nodes, 0) == nodes;
        return;
      }
      CutMembers(nodes, i);
      CutSlices(nodes, i);
      Unlink(node, i);
      node.next := head;
      node.prev := null;
      PushFront(node);
    }

    // Promotion seen from outside: the entry moves to the front, nothing else changes.
    method MoveToFront(node: LRUNode<K, V>, ghost i: nat)
      requires Coherent() && i < |nodes| && nodes[i] == node
      modifies this`head, this`tail, this`nodes, this`entries, nodes`prev, nodes`next
      ensures Coherent() && |nodes| == |old(nodes)| && Members(nodes) <= Members(old(nodes))
      ensures entries == [old(entries)[i]] + Cut(old(entries), i)
    {
      MappedMoved(nodes, index, i);
      ShownCut(nodes, entries, i);
      ShownFront(Cut(nodes, i), Cut(entries, i), node);
      Promote(node, i);
      entries := [entries[i]] + Cut(entries, i);
    }

    method Get(key: K) returns (value: Option<V>)
      requires Valid()
      modifies this`head, this`tail, this`nodes, this`entries, nodes`prev, nodes`next
      ensures Valid() && Members(nodes) <= Members(old(nodes))
      ensures value == Find(old(entries), key)
      ensures entries == AfterGet(old(entries), key)
    {
      ghost var i := LocatedGet(nodes, index, entries, key);
      if key !in index {
        return None;
      }
      var node := index[key];
      MoveToFront(node, i);
      value := Some(node.value);
    }

    method Set(key: K, value: V) returns (evicted: Option<K>)
      requires Valid()
      modifies this, nodes
      ensures Valid() && fresh(Members(nodes) - Members(old(nodes)))
      ensures entries == AfterSet(old(entries), key, value, maxSize)
      ensures evicted == EvictedBy(old(entries), key, value, maxSize)
      ensures evictions == old(evictions) + if evicted.Some? then 1 else 0
      ensures order == if key in old(index) then old(order)
                       else if evicted.Some? then Without(old(order) + [key], evicted.value) else old(order) + [key]
    {
      if key in index {
        Replace(key, value);
        evicted := None;
      } else {
        evicted := Add(key, value);
      }
    }

    method Add(key: K, value: V) returns (evicted: Option<K>)
      requires Valid() && key !in index
      modifies this, nodes`prev, nodes`next
      ensures Valid() && fresh(Members(nodes) - Members(old(nodes)))
      ensures entries == AfterSet(old(entries), key, value, maxSize)
      ensures evicted == EvictedBy(old(entries), key, value, maxSize)
      ensures evictions == old(evictions) + if evicted.Some? then 1 else 0
      ensures order == if evicted.Some? then Without(old(order) + [key], evicted.value) else old(order) + [key]
    {
      ghost var i := LocatedSet(nodes, index, entries, key, value, maxSize);
      Insert(key, value);
      evicted := None;
      if |index| > maxSize {
        evicted := EvictTail();
      }
    }

    method Replace(key: K, value: V)
      requires Valid() && key in index
      modifies this`head, this`tail, this`nodes, this`entries, nodes
      ensures Valid() && Members(nodes) <= Members(old(nodes))
      ensures entries == AfterSet(old(entries), key, value, maxSize)
      ensures EvictedBy(old(entries), key, value, maxSize) == None
    {
      ghost var i := LocatedSet(nodes, index, entries, key, value, maxSize);
      var existing := index[key];
      existing.value := value;
      assert Cut(entries[i := Entry(key, value)], i) == Cut(entries, i);
      entries := entries[i := Entry(key, value)];
      MoveToFront(existing, i);
    }

    method Insert(key: K, value: V)
      requires Coherent() && key !in index
      modifies this`index, this`order, this`head, this`tail, this`nodes, this`entries, nodes`prev
      ensures Coherent() && |nodes| == |old(nodes)| + 1 && fresh(Members(nodes) - Members(old(nodes)))
      ensures entries == [Entry(key, value)] + old(entries) && order == old(order) + [key]
    {
      var node := new LRUNode(key, value, head);
      NewNode(nodes, index, node);
      MappedAdded(nodes, index, node);
      IteratedAdded(order, index, key, node);
      ShownFront(nodes, entries, node);
      PushFront(node);
      MapAdd(node);
      entries := [Entry(key, value)] + entries;
      assert Mapped(nodes, index);
      assert Shown(nodes, entries);
    }

    method Detach(node: LRUNode<K, V>, ghost i: nat)
      requires Linked(nodes, head, tail) && Shown(nodes, entries) && i < |nodes| && nodes[i] == node
      modifies this`head, this`tail, this`nodes, this`entries, nodes`prev, nodes`next
      ensures Linked(nodes, head, tail) && nodes == Cut(old(nodes), i)
      ensures Shown(nodes, entries) && entries == Cut(old(entries), i)
    {
      ShownCut(nodes, entries, i);
      CutSlices(nodes, i);
      Unlink(node, i);
      entries := Cut(entries, i);
    }

    // Unlinks a node and deletes its key.
    method Forget(node: LRUNode<K, V>, ghost i: nat)
      requires Coherent() && i < |nodes| && nodes[i] == node
      modifies this`index, this`order, this`head, this`tail, this`nodes, this`entries, nodes`prev, nodes`next
      ensures Coherent() && |nodes| == |old(nodes)| - 1 && Members(nodes) <= Members(old(nodes))
      ensures entries == Cut(old(entries), i) && order == Without(old(order), node.key)
    {
      MappedCut(nodes, index, order, i);
      Detach(node, i);
      MapDelete(node.key);
    }

    // Drops the least recently touched entry.
    method EvictTail() returns (evicted: Option<K>)
      requires Coherent() && nodes != []
      modifies this`index, this`order, this`head, this`tail, this`nodes, this`entries,
               this`evictions, nodes`prev, nodes`next
      ensures Coherent() && |nodes| == |old(nodes)| - 1 && Members(nodes) <= Members(old(nodes))
      ensures entries == old(entries)[..|old(entries)| - 1]
      ensures evicted == Some(old(entries)[|old(entries)| - 1].key)
      ensures evictions == old(evictions) + 1 && order == Without(old(order), evicted.value)
    {
      var node := tail;
      if node == null {
        return None;
      }
      ghost var last := |nodes| - 1;
      assert Cut(entries, last) == entries[..last];
      Forget(node, last);
      evictions := evictions + 1;
      evicted := Some(node.key);
    }

    method Delete(key: K) returns (deleted: bool)
      requires Valid()
      modifies this`index, this`order, this`head, this`tail, this`nodes, this`entries, nodes`prev, nodes`next
      ensures Valid() && Members(nodes) <= Members(old(nodes))
      ensures deleted == Has(old(entries), key)
      ensures entries == Remove(old(entries), key)
      ensures order == if deleted then Without(old(order), key) else old(order)
    {
      ghost var i := Located(nodes, index, entries, key);
      deleted := key in index;
      if deleted {
        Forget(index[key], i);
      }
    }

    method Clear()
      requires Valid()
      modifies this`index, this`order, this`head, this`tail, this`nodes, this`entries
      ensures Valid() && nodes == [] && entries == [] && order == []
    {
      index, order, head, tail := map[], [], null, null;
      nodes, entries := [], [];
    }

    // All entries in the map's own order, as the scans take them: each once, and no others.
    method Snapshot() returns (pairs: seq<Entry<K, V>>)
      requires Valid()
      ensures |pairs| == |order| && forall j | 0 <= j < |pairs| :: pairs[j].key == order[j]
      ensures Distinct(pairs) && (forall e | e in pairs :: e in entries) && (forall e | e in entries :: e in pairs)
    {
      pairs := [];
      for j := 0 to |order|
        invariant |pairs| == j && forall x | 0 <= x < j :: pairs[x].key == order[x]
        invariant forall e | e in pairs :: e in entries
      {
        ghost var i := Located(nodes, index, entries, order[j]);
        pairs := pairs + [Entry(order[j], index[order[j]].value)];
      }
      SnapshotIsAll(nodes, index, order, entries, pairs);
    }
  }

  lemma SnapshotIsAll<K, V>(nodes: seq<LRUNode<K, V>>, index: map<K, LRUNode<K, V>>, order: seq<K>,
                            entries: seq<Entry<K, V>>, pairs: seq<Entry<K, V>>)
    requires Injective(nodes) && Mapped(nodes, index) && Iterated(order, index) && Shown(nodes, entries)
    requires |pairs| == |order| && forall j | 0 <= j < |pairs| :: pairs[j].key == order[j]
    requires forall e | e in pairs :: e in entries
    ensures forall e | e in entries :: e in pairs
  {
    forall e | e in entries
      ensures e in pairs
    {
      var i :| 0 <= i < |entries| && entries[i] == e;
      KeyOf(nodes, index, i);
      assert e.key in Members(order);
      var j :| 0 <= j < |order| && order[j] == e.key;
      SameKey(nodes, index, entries, e, pairs[j]);
    }
  }

  lemma SameKey<K, V>(nodes: seq<LRUNode<K, V>>, index: map<K, LRUNode<K, V>>, entries: seq<Entry<K, V>>,
                      a: Entry<K, V>, b: Entry<K, V>)
    requires Injective(nodes) && Mapped(nodes, index) && Shown(nodes, entries)
    requires a in entries && b in entries && a.key == b.key
    ensures a == b
  {
    var i := Located(nodes, index, entries, a.key);
  }
}
