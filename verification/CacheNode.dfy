/** Nodes that are members of a hash chain and of a circular list at once (cc_util/cc_hash.h,
    cc_util/cc_lru.h), and the list macros of cc_util/cc_list.h. */
module CacheNode {
  import opened HttpChars

  type Key = seq<Byte>

  class Node {
    const key: Key
    /** The next node of the hash chain. */
    var next: Node?
    /** The neighbours in the list. */
    var listPrev: Node?
    var listNext: Node?
    /** Places in the hash chain and in the list, counted from the oldest node. */
    ghost var slot: int
    ghost var pos: int

    constructor (key: Key)
      ensures this.key == key && next == null && listPrev == null && listNext == null
    {
      this.key := key;
      next, listPrev, listNext, slot, pos := null, null, null, 0, 0;
    }
  }

  /** A circular list through a head that is no member. The members are listed from the one before
      the head to the one behind it: in the order in which they were put behind the head. */
  class Ring {
    const head: Node
    ghost var nodes: seq<Node>

    /** The member at place i, or the head. */
    ghost function At(i: int): Node
      reads this
    {
      if 0 <= i < |nodes| then nodes[i] else head
    }

    ghost predicate Linked(i: int)
      requires 0 <= i < |nodes|
      reads this, nodes`pos, nodes`listPrev, nodes`listNext
    {
      nodes[i].pos == i && nodes[i] != head && nodes[i].listNext == At(i - 1) && nodes[i].listPrev == At(i + 1)
    }

    ghost predicate HeadLinked()
      reads this, head`listPrev, head`listNext
    {
      head.listPrev == At(0) && head.listNext == At(|nodes| - 1)
    }

    /** Both links of every member and of the head lead to its neighbours. */
    ghost predicate Valid()
      reads this, head`listPrev, head`listNext, nodes`pos, nodes`listPrev, nodes`listNext
    {
      HeadLinked() && forall i :: 0 <= i < |nodes| ==> Linked(i)
    }

    /** cc_dlist_init */
    constructor ()
      ensures Valid() && nodes == [] && fresh(head)
    {
      head := new Node([]);
      nodes := [];
      new;
      head.listPrev := head;
      head.listNext := head;
    }

    lemma LinkedOf(i: int)
      requires Valid()
      ensures 0 <= i < |nodes| ==>
        nodes[i].pos == i && nodes[i] != head && nodes[i].listNext == At(i - 1) && nodes[i].listPrev == At(i + 1)
    {
      assert 0 <= i < |nodes| ==> Linked(i);
    }

    lemma Apart()
      requires Valid()
      ensures forall i :: 0 <= i < |nodes| ==> nodes[i] != head && nodes[i].pos == i
    {
      forall i | 0 <= i < |nodes|
        ensures nodes[i] != head && nodes[i].pos == i
      {
        LinkedOf(i);
      }
    }

    /** Nothing but the links named has changed: the successor of a and the predecessor of b. */
    twostate predicate OnlyLinks(old_: seq<Node>, new a: Node, new b: Node)
      reads this, head, old_
    {
      && (forall i :: 0 <= i < |old_| ==> old_[i] != head && old_[i].pos == old(old_[i].pos))
      && (forall i :: 0 <= i < |old_| ==> (old_[i] != a ==> old_[i].listNext == old(old_[i].listNext)))
      && (forall i :: 0 <= i < |old_| ==> (old_[i] != b ==> old_[i].listPrev == old(old_[i].listPrev)))
      && (head != a ==> head.listNext == old(head.listNext)) && (head != b ==> head.listPrev == old(head.listPrev))
    }

    /** cc_dlist_insert_backward with the head as target */
    method InsertBackward(node: Node)
      requires Valid() && node !in nodes && node != head
      modifies this, node`listPrev, node`listNext, node`pos
      modifies head`listPrev, head`listNext, nodes`listPrev, nodes`listNext
      ensures Valid() && nodes == old(nodes) + [node]
    {
      hide Linked;
      LinkedOf(|nodes| - 1);
      Apart();
      node.listPrev := head;
      node.listNext := head.listNext;
      head.listNext.listPrev := node;
      head.listNext := node;
      node.pos := |nodes|;
      nodes := nodes + [node];
      forall i | 0 <= i < |nodes|
        ensures Linked(i)
      {
        InsertedLinked(node, i);
      }
    }

    twostate lemma InsertedLinked(new node: Node, new i: int)
      requires old(Valid()) && nodes == old(nodes) + [node] && 0 <= i < |nodes| && node !in old(nodes) && node != head
      requires node.pos == |nodes| - 1 && node.listPrev == head
      requires node.listNext == old(head.listNext) == old(At(|nodes| - 1))
      requires OnlyLinks(old(nodes), head, old(At(|nodes| - 1))) && old(At(|nodes| - 1)).listPrev == node
      ensures Linked(i)
    {
      if i < |nodes| - 1 {
        assert old(Linked(i));
        assert nodes[i] == old(nodes)[i];
        if i < |nodes| - 2 {
          assert old(Linked(i + 1));
          assert nodes[i + 1] == old(nodes)[i + 1];
        }
        assert old(Linked(|nodes| - 1));
      }
    }
  
    /** The neighbours of the member at k are linked to each other; nothing else has changed for the rest. */
    twostate predicate Bypassed(old_: seq<Node>, new k: int)
      requires 0 <= k < |old_|
      reads this, head, old_
    {
      var a, b := old(At(k + 1)), old(At(k - 1));
      && (forall i :: 0 <= i < |old_| && i != k ==> old_[i] != head && old_[i].pos == if i < k then i else i - 1)
      && (forall i :: 0 <= i < |old_| && i != k ==> old_[i].listNext == if old_[i] == a then b
          else old(old_[i].listNext))
      && (forall i :: 0 <= i < |old_| && i != k ==> old_[i].listPrev == if old_[i] == b then a
          else old(old_[i].listPrev))
      && head.listNext == (if head == a then b else old(head.listNext))
            && head.listPrev == (if head == b then a else old(head.listPrev))
    }

    twostate lemma DeletedLinked(new k: int, new i: int)
      requires old(Valid()) && 0 <= k < |old(nodes)| && Bypassed(old(nodes), k)
      requires nodes == old(nodes)[..k] + old(nodes)[k + 1..] && 0 <= i < |nodes|
      ensures Linked(i)
    {
      hide Valid, HeadLinked;
      var j := if i < k then i else i + 1;
      assert nodes[i] == old(nodes)[j];
      OldLinks(j);
      OldLinks(j - 1);
      OldLinks(j + 1);
      OldLinks(k);
    }

    twostate lemma OldLinks(new i: int)
      requires old(Valid())
      ensures 0 <= i < |old(nodes)| ==> old(nodes[i].pos == i && nodes[i] != head
        && nodes[i].listNext == At(i - 1) && nodes[i].listPrev == At(i + 1))
    {
      assert 0 <= i < |old(nodes)| ==> old(Linked(i));
    }

    twostate lemma DeletedHead(new k: int)
      requires old(Valid()) && 0 <= k < |old(nodes)| && Bypassed(old(nodes), k)
      requires nodes == old(nodes)[..k] + old(nodes)[k + 1..]
      ensures HeadLinked()
    {
      OldLinks(0);
      OldLinks(|old(nodes)| - 1);
    }

    /** cc_dlist_delete */
    method Delete(node: Node)
      requires Valid() && node in nodes
      modifies this, head`listPrev, head`listNext, nodes`listPrev, nodes`listNext, nodes`pos
      ensures 0 <= old(node.pos) < |old(nodes)| && old(nodes)[old(node.pos)] == node
      ensures Valid() && nodes == old(nodes)[..old(node.pos)] + old(nodes)[old(node.pos) + 1..]
      ensures node.listPrev == null && node.listNext == null
    {
      hide Linked, HeadLinked;
      Apart();
      ghost var k := node.pos;
      LinkedOf(k);
      if head != node {
        node.listPrev.listNext := node.listNext;
        node.listNext.listPrev := node.listPrev;
        node.listNext, node.listPrev := null, null;
      }
      forall i | k < i < |nodes| {
        nodes[i].pos := i - 1;
      }
      nodes := nodes[..k] + nodes[k + 1..];
      assert Bypassed(old(nodes), k);
      DeletedHead(k);
      forall i | 0 <= i < |nodes|
        ensures Linked(i)
      {
        DeletedLinked(k, i);
      }
    }
  }
}
