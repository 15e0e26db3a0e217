/** The LRU cache over a hash table and a circular list (cc_util/cc_lru.c). */
module Lru {
  import opened Sequences
  import opened CacheNode
  import opened HashTable
  import opened LruTheory

  function KeysOf(nodes: seq<Node>): (keys: seq<Key>)
    ensures |keys| == |nodes| && forall i :: 0 <= i < |nodes| ==> keys[i] == nodes[i].key
  {
    if nodes == [] then [] else KeysOf(Front(nodes)) + [Last(nodes).key]
  }

  ghost predicate SameNodes(a: seq<Node>, b: seq<Node>) {
    (forall x :: x in a ==> x in b) && (forall x :: x in b ==> x in a)
  }

  lemma WithoutOne(s: seq<Node>, k: nat)
    requires k < |s| && forall i :: 0 <= i < |s| && s[i] == s[k] ==> i == k
    ensures forall x :: x in WithoutAt(s, k) <==> x in s && x != s[k]
  {
    forall x
      ensures x in WithoutAt(s, k) <==> x in s && x != s[k]
    {
      if x in s && x != s[k] {
        var i :| 0 <= i < |s| && s[i] == x;
        assert WithoutAt(s, k)[if i < k then i else i - 1] == x;
      }
      if x in WithoutAt(s, k) {
        var i :| 0 <= i < |s| - 1 && WithoutAt(s, k)[i] == x;
        assert s[if i < k then i else i + 1] == x;
      }
    }
  }

  lemma KeysWithout(nodes: seq<Node>, k: nat)
    requires k < |nodes|
    ensures KeysOf(WithoutAt(nodes, k)) == WithoutAt(KeysOf(nodes), k)
  {
    hide KeysOf;
    var s := WithoutAt(nodes, k);
    forall i | 0 <= i < |s|
      ensures KeysOf(s)[i] == WithoutAt(KeysOf(nodes), k)[i]
    {
      assert s[i] == nodes[if i < k then i else i + 1];
    }
  }

  lemma KeysAppend(nodes: seq<Node>, node: Node)
    ensures KeysOf(nodes + [node]) == KeysOf(nodes) + [node.key]
  {
    assert Front(nodes + [node]) == nodes;
  }

  /** A hit moves the node to the end. */
  lemma KeysTouched(nodes: seq<Node>, same: Compare, key: Key)
    requires Place(KeysOf(nodes), same, key) >= 0
    ensures var p := Place(KeysOf(nodes), same, key);
      KeysOf(WithoutAt(nodes, p) + [nodes[p]]) == Touch(KeysOf(nodes), same, key)
  {
    hide Place, KeysOf;
    var p := Place(KeysOf(nodes), same, key);
    KeysWithout(nodes, p);
    KeysAppend(WithoutAt(nodes, p), nodes[p]);
  }

  class LruCache {
    const ring: Ring
    const table: Table
    const capacity: nat
    var size: nat

    /** The cached keys, least recently used first. */
    ghost function Keys(): seq<Key>
      reads this, ring
    {
      KeysOf(ring.nodes)
    }

    /** List and table hold the same nodes, each once, with keys apart, and no more than fit. */
    ghost predicate Agree()
      reads this, ring, table
    {
      && SameNodes(ring.nodes, table.items) && Apart(KeysOf(ring.nodes), table.same)
      && size == |ring.nodes| == |table.items| <= capacity
    }

    ghost predicate Valid()
      reads this, ring, ring.head`listPrev, ring.head`listNext, ring.nodes`pos, ring.nodes`listPrev, ring.nodes`listNext
      reads table, table.buckets, table.items`slot, table.items`next
    {
      ring.Valid() && table.Valid() && Agree()
    }

    /** cc_lru_cache_create: about three quarters of a node for each bucket */
    constructor (capacity: nat, hash: Hash, same: Compare)
      requires Good(hash, same, if capacity * 4 / 3 < MIN_BUCKET_SIZE then MIN_BUCKET_SIZE else capacity * 4 / 3)
      ensures Valid() && Keys() == [] && this.capacity == capacity && table.same == same
      ensures fresh(ring) && fresh(ring.head) && fresh(table) && fresh(table.buckets)
    {
      this.capacity := capacity;
      table := new Table(capacity * 4 / 3, hash, same);
      ring := new Ring();
      size := 0;
      new;
    }

    lemma SameIsEquivalence()
      requires table.Valid()
      ensures Equivalence(table.same)
    {}

    lemma SameObjects()
      requires Valid()
      ensures forall i :: 0 <= i < |table.items| ==> table.items[i] in ring.nodes
    {}

    /** Table and list find the same node. */
    lemma OneNode(key: Key)
      requires ring.Valid() && table.Valid() && Agree()
      ensures var k, p := Newest(table.items, table.same, key), Place(Keys(), table.same, key);
        (k < 0 <==> p < 0) && (k >= 0 ==> table.items[k] == ring.nodes[p])
    {
      hide Newest, Place, Good, Table.BucketLinked, Ring.Linked, Ring.HeadLinked, Equivalence, Apart;
      SameIsEquivalence();
      var k, p := Newest(table.items, table.same, key), Place(Keys(), table.same, key);
      if p >= 0 {
        var x := ring.nodes[p];
        assert x in table.items;
        var i :| 0 <= i < |table.items| && table.items[i] == x;
      }
      if k >= 0 {
        var x := table.items[k];
        assert x in ring.nodes;
        var i :| 0 <= i < |ring.nodes| && ring.nodes[i] == x;
        PlaceUnique(Keys(), table.same, key, i);
      }
    }

    /** Out of the list and back in behind the head. */
    method MoveToFront(node: Node)
      requires ring.Valid() && node in ring.nodes
      modifies ring, ring.head`listPrev, ring.head`listNext, ring.nodes`pos, ring.nodes`listPrev, ring.nodes`listNext
      ensures ring.Valid() && 0 <= old(node.pos) < |old(ring.nodes)| && old(ring.nodes[node.pos]) == node
      ensures ring.nodes == WithoutAt(old(ring.nodes), old(node.pos)) + [node]
      ensures SameNodes(ring.nodes, old(ring.nodes))
    {
      hide Ring.Linked, Ring.HeadLinked;
      ring.Apart();
      WithoutOne(ring.nodes, node.pos);
      ring.Delete(node);
      ring.InsertBackward(node);
    }

    lemma PlaceIs(p: int)
      requires ring.Valid() && 0 <= p < |ring.nodes|
      ensures ring.nodes[p].pos == p
    {
      ring.LinkedOf(p);
    }

    /** cc_lru_cache_lookup */
    method Lookup(key: Key) returns (node: Node?)
      requires Valid()
      modifies ring, ring.head`listPrev, ring.head`listNext, ring.nodes`pos, ring.nodes`listPrev, ring.nodes`listNext
      ensures Valid()
      ensures var p := old(Place(Keys(), table.same, key));
        if p < 0 then node == null && ring.nodes == old(ring.nodes)
        else node == old(ring.nodes[p]) && ring.nodes == WithoutAt(old(ring.nodes), p) + [node]
      ensures Keys() == if node == null then old(Keys()) else old(Touch(Keys(), table.same, key))
    {
      hide Newest, Place, Good, Table.BucketLinked, Ring.Valid, Equivalence, Apart, Touch, KeysOf;
      OneNode(key);
      var found := table.Lookup(key);
      if found == null {
        return null;
      }
      node := found;
      PlaceIs(Place(Keys(), table.same, key));
      SameIsEquivalence();
      KeysTouched(ring.nodes, table.same, key);
      TouchApart(Keys(), table.same, key);
      MoveToFront(node);
      assert table.Valid();
    }

    /** A cached node is the one found under its own key. */
    lemma SelfPlace(p: nat)
      requires Valid() && p < |ring.nodes|
      ensures Place(Keys(), table.same, ring.nodes[p].key) == p
    {
      hide Newest, Place, Table.BucketLinked, Ring.Linked, Ring.HeadLinked, Equivalence, Apart, KeysOf;
      SameIsEquivalence();
      Self(table.same, ring.nodes[p].key);
      PlaceUnique(Keys(), table.same, ring.nodes[p].key, p);
    }

    /** Dropping the node of a key from both keeps them in agreement. */
    lemma Dropped(key: Key)
      requires Valid() && Place(Keys(), table.same, key) >= 0
      ensures var k, p := Newest(table.items, table.same, key), Place(Keys(), table.same, key);
        k >= 0 && SameNodes(WithoutAt(ring.nodes, p), WithoutAt(table.items, k))
      ensures Apart(KeysOf(WithoutAt(ring.nodes, Place(Keys(), table.same, key))), table.same)
    {
      hide Newest, Place, Good, Table.BucketLinked, Ring.Linked, Ring.HeadLinked, Equivalence, KeysOf;
      var p := Place(Keys(), table.same, key);
      OneNode(key);
      ring.Apart();
      WithoutOne(ring.nodes, p);
      var k := Newest(table.items, table.same, key);
      table.OnlyOnce(k);
      WithoutOne(table.items, k);
      KeysWithout(ring.nodes, p);
    }

    /** The node of a key leaves list and table. */
    method Drop(node: Node, key: Key) returns (destroyed: Node?)
      requires Valid() && Place(Keys(), table.same, key) >= 0 && node == ring.nodes[Place(Keys(), table.same, key)]
      modifies this`size, ring, ring.head`listPrev, ring.head`listNext
      modifies ring.nodes`pos, ring.nodes`listPrev, ring.nodes`listNext
      modifies table`items, table`nodeSize, table.buckets, table.items`next, table.items`slot
      ensures Valid() && ring.nodes == WithoutAt(old(ring.nodes), old(Place(Keys(), table.same, key)))
      ensures size == old(size) - 1 && destroyed == node
    {
      hide Newest, Place, Good, Table.BucketLinked, Ring.Linked, Ring.HeadLinked, Equivalence, Apart, KeysOf, SameNodes;
      PlaceIs(Place(Keys(), table.same, key));
      Dropped(key);
      OneNode(key);
      ring.Delete(node);
      assert table.Valid();
      var gone;
      gone, destroyed := table.Delete(key, false);
      size := size - 1;
      assert ring.Valid();
      assert Agree();
    }

    /** cc_lru_cache_delete */
    method Delete(key: Key) returns (destroyed: Node?)
      requires Valid()
      modifies this`size, ring, ring.head`listPrev, ring.head`listNext
      modifies ring.nodes`pos, ring.nodes`listPrev, ring.nodes`listNext
      modifies table`items, table`nodeSize, table.buckets, table.items`next, table.items`slot
      ensures Valid()
      ensures var p := old(Place(Keys(), table.same, key));
        ring.nodes == (if p < 0 then old(ring.nodes) else WithoutAt(old(ring.nodes), p))
        && destroyed == if p < 0 then null else old(ring.nodes)[p]
      ensures var p := old(Place(Keys(), table.same, key));
        Keys() == if p < 0 then old(Keys()) else WithoutAt(old(Keys()), p)
    {
      hide Newest, Place, Good, Table.BucketLinked, Ring.Valid, Equivalence, Apart, KeysOf, SameNodes;
      OneNode(key);
      if Place(Keys(), table.same, key) >= 0 {
        KeysWithout(ring.nodes, Place(Keys(), table.same, key));
      }
      var node := table.Lookup(key);
      destroyed := null;
      if node != null {
        destroyed := Drop(node, key);
      }
    }

    /** The last member of the list is the least recently used one. */
    lemma FirstAndLast()
      requires Valid() && |ring.nodes| > 0
      ensures ring.head.listPrev == ring.nodes[0]
    {
      hide Ring.Linked;
    }

    /** cc_lru_cache_insert of a node whose key is absent */
    method Insert(node: Node) returns (destroyed: Node?)
      requires Valid() && capacity >= 1 && Place(Keys(), table.same, node.key) < 0
      requires node !in ring.nodes && node != ring.head && node.next == null
      modifies this`size, ring, ring.head`listPrev, ring.head`listNext
      modifies ring.nodes`pos, ring.nodes`listPrev, ring.nodes`listNext
      modifies table`items, table`nodeSize, table.buckets, table.items`next, table.items`slot
      modifies node`next, node`slot, node`pos, node`listPrev, node`listNext
      ensures Valid()
      ensures ring.nodes == (if |old(ring.nodes)| >= capacity then old(ring.nodes)[1..] else old(ring.nodes)) + [node]
      ensures Keys() == old(Request(Keys(), table.same, capacity, node.key))
      ensures destroyed == if |old(ring.nodes)| >= capacity then old(ring.nodes)[0] else null
    {
      hide Newest, Place, Good, Table.BucketLinked, Ring.Linked, Ring.HeadLinked, Equivalence, Apart, KeysOf, SameNodes;
      InsertedKeys(node);
      Joins(node);
      destroyed := null;
      if size >= capacity {
        FirstAndLast();
        var lastNode := ring.head.listPrev;
        SelfPlace(0);
        StillAbsent(node.key);
        destroyed := Drop(lastNode, lastNode.key);
        Joins(node);
      }
      table.Insert(node);
      ring.InsertBackward(node);
      size := size + 1;
    }

    lemma InsertedKeys(node: Node)
      requires Valid() && capacity >= 1 && Place(Keys(), table.same, node.key) < 0
      ensures KeysOf((if |ring.nodes| >= capacity then ring.nodes[1..] else ring.nodes) + [node]) ==
        Request(Keys(), table.same, capacity, node.key)
    {
      hide Place, Good, Table.BucketLinked, Ring.Valid, KeysOf, Equivalence, Apart;
      if |ring.nodes| >= capacity {
        KeysWithout(ring.nodes, 0);
        assert WithoutAt(ring.nodes, 0) == ring.nodes[1..] && WithoutAt(Keys(), 0) == Keys()[1..];
        KeysAppend(ring.nodes[1..], node);
      } else {
        KeysAppend(ring.nodes, node);
      }
    }

    /** A key that was absent is absent without the first node. */
    lemma StillAbsent(key: Key)
      requires |ring.nodes| > 0 && Place(Keys(), table.same, key) < 0
      ensures Place(KeysOf(WithoutAt(ring.nodes, 0)), table.same, key) < 0
      ensures WithoutAt(ring.nodes, 0) == ring.nodes[1..]
    {
      hide KeysOf;
      KeysWithout(ring.nodes, 0);
    }

    lemma Joins(node: Node)
      requires Valid() && Place(Keys(), table.same, node.key) < 0 && node !in ring.nodes
      ensures node !in table.items && SameNodes(ring.nodes + [node], table.items + [node])
      ensures Apart(KeysOf(ring.nodes + [node]), table.same)
    {
      hide Newest, Place, Good, Table.BucketLinked, Ring.Valid, Equivalence, KeysOf;
      KeysAppend(ring.nodes, node);
      SameIsEquivalence();
      TouchApart(Keys(), table.same, node.key);
    }
  }

  /** A miss is followed by an insert of a new node. */
  method InsertNew(cache: LruCache, key: Key)
    requires cache.Valid() && cache.capacity >= 1 && Place(cache.Keys(), cache.table.same, key) < 0
    modifies cache`size, cache.ring, cache.ring.head`listPrev, cache.ring.head`listNext
    modifies cache.ring.nodes`pos, cache.ring.nodes`listPrev, cache.ring.nodes`listNext
    modifies cache.table`items, cache.table`nodeSize, cache.table.buckets
    modifies cache.table.items`next, cache.table.items`slot
    ensures cache.Valid() && cache.Keys() == old(Request(cache.Keys(), cache.table.same, cache.capacity, key))
    ensures forall j :: 0 <= j < |cache.ring.nodes| ==>
        cache.ring.nodes[j] in old(cache.ring.nodes) || fresh(cache.ring.nodes[j])
  {
    hide Place, LruCache.Valid, Request, KeysOf;
    var node := new Node(key);
    var _ := cache.Insert(node);
  }

  /** A request as callers make it: a lookup and, on a miss, an insert. */
  method Serve(cache: LruCache, key: Key)
    requires cache.Valid() && cache.capacity >= 1
    modifies cache`size, cache.ring, cache.ring.head`listPrev, cache.ring.head`listNext
    modifies cache.ring.nodes`pos, cache.ring.nodes`listPrev, cache.ring.nodes`listNext
    modifies cache.table`items, cache.table`nodeSize, cache.table.buckets
    modifies cache.table.items`next, cache.table.items`slot
    ensures cache.Valid() && cache.Keys() == old(Request(cache.Keys(), cache.table.same, cache.capacity, key))
    ensures forall j :: 0 <= j < |cache.ring.nodes| ==>
        cache.ring.nodes[j] in old(cache.ring.nodes) || fresh(cache.ring.nodes[j])
  {
    hide Place, LruCache.Valid, Request, KeysOf, Touch;
    RequestCases(cache.Keys(), cache.table.same, cache.capacity, key);
    var node := cache.Lookup(key);
    if node == null {
      InsertNew(cache, key);
    }
  }

  lemma RequestCases(keys: seq<Key>, same: Compare, c: nat, key: Key)
    ensures Place(keys, same, key) >= 0 ==> Request(keys, same, c, key) == Touch(keys, same, key)
  {}

  /** Whatever is requested of a new cache, it ends with exactly the most recently requested keys. */
  method ServeAll(capacity: nat, hash: Hash, same: Compare, trace: seq<Key>) returns (cache: LruCache)
    requires capacity >= 1
    requires Good(hash, same, if capacity * 4 / 3 < MIN_BUCKET_SIZE then MIN_BUCKET_SIZE else capacity * 4 / 3)
    ensures cache.Valid() && cache.capacity == capacity && cache.Keys() == Contents(trace, same, capacity)
    ensures Alike(cache.Keys(), Newer(Recent(trace, same), capacity), same)
  {
    hide Place, Newest, Ring.Valid, Table.Valid, LruCache.Agree, LruCache.Valid;
    hide Request, KeysOf, Touch, Alike, Newer, Equivalence, Recent;
    cache := new LruCache(capacity, hash, same);
    var i := 0;
    while i < |trace|
      invariant i <= |trace| && cache.Valid() && fresh(cache) && cache.capacity == capacity && cache.table.same == same
      invariant fresh(cache.ring) && fresh(cache.ring.head) && fresh(cache.table) && fresh(cache.table.buckets)
      invariant forall j :: 0 <= j < |cache.ring.nodes| ==> fresh(cache.ring.nodes[j])
      invariant cache.Keys() == Contents(trace[..i], same, capacity)
    {
      cache.SameObjects();
      Serve(cache, trace[i]);
      assert Front(trace[..i + 1]) == trace[..i] && Last(trace[..i + 1]) == trace[i];
      i := i + 1;
    }
    assert trace[..i] == trace;
    GoodIsEquivalence(hash, same, if capacity * 4 / 3 < MIN_BUCKET_SIZE then MIN_BUCKET_SIZE else capacity * 4 / 3);
    HoldsMostRecent(trace, same, capacity);
  }

  lemma GoodIsEquivalence(hash: Hash, same: Compare, n: nat)
    requires Good(hash, same, n)
    ensures Equivalence(same)
  {}
}
