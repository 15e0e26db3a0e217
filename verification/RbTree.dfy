/** The intrusive red-black tree of cc_util/cc_rbtree.c: nodes linked by left, right and
    parent fields, one shared sentinel for every missing child, and a delete that relinks
    nodes instead of copying keys.

    Each node carries a ghost layout: its index in the in-order sequence, the half-open range
    of indices its subtree covers, and its black height.  The invariant is then local: it
    relates a node to its two children and its parent only, so that a step which relinks a
    few nodes needs proof about those nodes only. */
module RbTree {

  /** unsigned long */
  type Key = k: int | 0 <= k < 0x1_0000_0000_0000_0000

  /** The low 32 bits of an unsigned long, read as a signed int. */
  function ToInt(k: int): int {
    var m := k % 0x1_0000_0000;
    if m < 0x8000_0000 then m else m - 0x1_0000_0000
  }

  /** The order of cc_rbtree_insert_timer_value: the sign of the difference cast to int. */
  predicate TimerLess(a: Key, b: Key) {
    ToInt((a - b) % 0x1_0000_0000_0000_0000) < 0
  }

  /** The cast is harmless for keys less than 2^31 apart. */
  lemma TimerLessIsLess(a: Key, b: Key)
    requires -0x8000_0000 < b - a < 0x8000_0000
    ensures TimerLess(a, b) <==> a < b
  {
    var d := (a - b) % 0x1_0000_0000_0000_0000;
    assert d == if a < b then a - b + 0x1_0000_0000_0000_0000 else a - b;
    assert d % 0x1_0000_0000 == if a < b then a - b + 0x1_0000_0000 else a - b;
  }

  /** Exactly when the timer order is the plain order: how far the greater key is ahead, modulo 2^32. */
  lemma TimerOrderExactly(a: Key, b: Key)
    ensures (TimerLess(a, b) <==> a < b) <==>
      (if a < b then (b - a - 1) % 0x1_0000_0000 < 0x8000_0000 else (a - b) % 0x1_0000_0000 < 0x8000_0000)
  {
    var d := (a - b) % 0x1_0000_0000_0000_0000;
    assert d == if a < b then a - b + 0x1_0000_0000_0000_0000 else a - b;
    Low32(a - b);
    if a < b {
      var k := b - a - 1;
      assert (a - b) % 0x1_0000_0000 == 0xffff_ffff - k % 0x1_0000_0000;
    }
  }

  lemma Low32(x: int)
    ensures (x + 0x1_0000_0000_0000_0000) % 0x1_0000_0000 == x % 0x1_0000_0000
  {}

  /** The window cannot be widened: keys 2^31 apart are already ordered the wrong way round. */
  lemma WindowIsSharp(a: Key)
    requires a + 0x8000_0000 < 0x1_0000_0000_0000_0000
    ensures TimerLess(a + 0x8000_0000, a)
  {
    TimerOrderExactly(a + 0x8000_0000, a);
  }

  class Node {
    var key: Key
    var left: Node?
    var right: Node?
    var parent: Node?
    var red: bool
    ghost var pos: int  // index of this node in the in-order sequence
    ghost var lo: int   // the subtree of this node is order[lo..hi]
    ghost var hi: int
    ghost var bh: int   // black nodes on any way down from here, this node included

    constructor (k: Key)
      ensures key == k && left == right == parent == null && !red && bh == 0
    {
      key, left, right, parent, red, bh := k, null, null, null, false, 0;
    }
  }

  class Tree {
    var root: Node
    const sentinel: Node
    const timerWalk: bool      // tree->insert is cc_rbtree_insert_timer_value
    ghost var order: seq<Node> // the in-order sequence
    ghost var nodes: set<Node> // its elements

    constructor (s: Node, timer: bool)
      modifies s
      ensures Valid() && order == [] && nodes == {} && sentinel == s && timerWalk == timer
    {
      sentinel, root, timerWalk := s, s, timer;
      order, nodes := [], {};
      new;
      s.red, s.bh := false, 0;
    }

    // ----- Invariant -----

    ghost predicate Indexed()
      reads this, nodes
    {
      && sentinel !in nodes
      && (forall n {:trigger n in nodes} :: n in nodes ==> 0 <= n.pos < |order| && order[n.pos] == n)
      && (forall i {:trigger order[i]} :: 0 <= i < |order| ==> order[i] in nodes && order[i].pos == i)
    }

    /** The links and ranges around n agree. The root's own parent field is not constrained:
        after a delete it may be stale. */
    ghost predicate Linked(n: Node)
      reads this, nodes, n
    {
      && 0 <= n.lo <= n.pos < n.hi <= |order|
      && (if n.left == sentinel then n.lo == n.pos
          else n.left in nodes && n.left.parent == n && n.left.lo == n.lo && n.left.hi == n.pos)
      && (if n.right == sentinel then n.hi == n.pos + 1
          else n.right in nodes && n.right.parent == n && n.right.lo == n.pos + 1 && n.right.hi == n.hi)
      && (n != root ==> n.parent in nodes && (n.parent.left == n || n.parent.right == n))
    }

    ghost predicate Rooted()
      reads this, nodes
    {
      if root == sentinel then order == [] else root in nodes && root.lo == 0 && root.hi == |order|
    }

    ghost predicate Shape()
      reads this, nodes
    {
      && Indexed()
      && Rooted()
      && forall n {:trigger Linked(n)} :: n in nodes ==> Linked(n)
    }

    // ----- Rotations -----

    /** Hangs temp below node's parent, in the place of node. */
    method Supplant(node: Node, temp: Node)
      requires node != root ==> node.parent != null && (node.parent.left == node || node.parent.right == node)
      modifies `root
      modifies (if node != root then {node.parent} else {})`left
      modifies (if node != root then {node.parent} else {})`right
      ensures root == (if node == old(root) then temp else old(root))
      ensures node != old(root) ==>
                && node.parent.left == (if old(node.parent.left) == node then temp else old(node.parent.left))
                && node.parent.right == (if old(node.parent.left) == node then old(node.parent.right) else temp)
    {
      if node == root {
        root := temp;
      } else if node == node.parent.left {
        node.parent.left := temp;
      } else {
        node.parent.right := temp;
      }
    }

    twostate predicate RotatedLeft(node: Node, temp: Node)
      reads this, nodes
    {
      var p := old(node.parent);
      var up := node != old(root);
      && nodes == old(nodes) && order == old(order)
      && node in nodes && temp in nodes && old(node.right) == temp
      && root == (if up then old(root) else temp)
      && forall n {:trigger n in nodes} :: n in nodes ==>
        && n.left == (if n == temp then node else if up && n == p && old(n.left) == node then temp else old(n.left))
        && n.right == (if n == node then old(temp.left)
                       else if up && n == p && old(n.left) != node then temp else old(n.right))
        && n.parent == (if n == node then temp else if n == temp then p
                        else if n == old(temp.left) then node else old(n.parent))
        && n.lo == (if n == temp then old(node.lo) else old(n.lo))
        && n.hi == (if n == node then temp.pos else old(n.hi))
        && n.pos == old(n.pos)
    }

    method RotateLeft(node: Node)
      requires Shape() && node in nodes && node.right != sentinel
      modifies `root, nodes`left, nodes`right, nodes`parent, nodes`lo, nodes`hi
      ensures Shape()
      ensures old(node.right) in nodes && RotatedLeft(node, old(node.right))
    {
      assert Linked(node);
      ghost var temp := node.right;
      RelinkLeft(node);
      RotatedLeftShape(node, temp);
    }

    method RelinkLeft(node: Node)
      requires sentinel !in nodes && node in nodes && Linked(node)
      requires node.right != sentinel && Linked(node.right)
      requires node != root ==> Linked(node.parent)
      requires node.right.left != sentinel ==> Linked(node.right.left)
      modifies `root, nodes`left, nodes`right, nodes`parent, nodes`lo, nodes`hi
      ensures old(node.right) in nodes && RotatedLeft(node, old(node.right))
    {
      var temp := node.right;
      TurnLeft(node, temp);
      node.hi, temp.lo := temp.pos, node.lo;
    }

    /** The pointer updates of the rotation. */
    method TurnLeft(node: Node, temp: Node)
      requires node.right == temp && temp != node && temp.left != null && temp.left != node && temp.left != temp
      requires node != root ==> node.parent != null && node.parent != node && node.parent != temp
      requires node != root ==> node.parent != temp.left && (node.parent.left == node || node.parent.right == node)
      modifies `root, node`right, node`parent, temp`left, temp`parent
      modifies (if temp.left != sentinel then {temp.left} else {})`parent
      modifies (if node != root then {node.parent} else {})`left
      modifies (if node != root then {node.parent} else {})`right
      ensures root == (if node == old(root) then temp else old(root))
      ensures node.right == old(temp.left) && node.parent == temp && temp.left == node
      ensures temp.parent == old(node.parent)
      ensures old(temp.left) != sentinel ==> old(temp.left).parent == node
      ensures var p := old(node.parent);
        node != old(root) ==>
          (p.left == (if old(p.left) == node then temp else old(p.left))
           && p.right == (if old(p.left) == node then old(p.right) else temp))
    {
      node.right := temp.left;
      if temp.left != sentinel {
        temp.left.parent := node;
      }
      temp.parent := node.parent;
      Supplant(node, temp);
      temp.left := node;
      node.parent := temp;
    }

    twostate lemma RotatedLeftShape(node: Node, new temp: Node)
      requires old(Shape()) && node in old(nodes) && temp in old(nodes) && RotatedLeft(node, temp) && temp != sentinel
      ensures Shape()
    {
      assert old(Linked(node)) && old(Linked(temp));
      forall n | n in nodes ensures Linked(n) {
        if n == node {
          RotatedLeftLinked1(node, temp);
        } else if n == temp {
          RotatedLeftLinked2(node, temp);
        } else {
          RotatedLeftLinked3(node, temp, n);
        }
      }
    }

    twostate lemma RotatedLeftLinked1(node: Node, new temp: Node)
      requires node in old(nodes) && temp in old(nodes) && nodes == old(nodes)
      requires sentinel !in nodes && temp != sentinel && RotatedLeft(node, temp)
      requires old(Linked(node)) && old(Linked(temp))
      requires old(temp.left) != sentinel ==> old(Linked(temp.left))
      requires old(node.left) != sentinel ==> old(Linked(node.left))
      ensures Linked(node)
    {}

    twostate lemma RotatedLeftLinked2(node: Node, new temp: Node)
      requires node in old(nodes) && temp in old(nodes) && nodes == old(nodes)
      requires sentinel !in nodes && temp != sentinel && RotatedLeft(node, temp)
      requires old(Linked(node)) && old(Linked(temp))
      requires node != old(root) ==> old(Linked(node.parent))
      requires old(temp.right) != sentinel ==> old(Linked(temp.right))
      ensures Linked(temp)
    {}

    twostate lemma RotatedLeftLinked3(node: Node, new temp: Node, new n: Node)
      requires node in old(nodes) && temp in old(nodes) && nodes == old(nodes)
      requires sentinel !in nodes && temp != sentinel && RotatedLeft(node, temp)
      requires old(Linked(node)) && old(Linked(temp)) && old(Rooted())
      requires node != old(root) ==> old(Linked(node.parent))
      requires old(temp.left) != sentinel ==> old(Linked(temp.left))
      requires n in nodes && n != node && n != temp
      requires old(Linked(n))
      requires old(n.left) != sentinel ==> old(Linked(n.left))
      requires old(n.right) != sentinel ==> old(Linked(n.right))
      requires n != old(root) ==> old(Linked(n.parent))
      ensures Linked(n)
    {}
    twostate predicate RotatedRight(node: Node, temp: Node)
      reads this, nodes
    {
      var p := old(node.parent);
      var up := node != old(root);
      && nodes == old(nodes) && order == old(order)
      && node in nodes && temp in nodes && old(node.left) == temp
      && root == (if up then old(root) else temp)
      && forall n {:trigger n in nodes} :: n in nodes ==>
        && n.right == (if n == temp then node else if up && n == p && old(n.left) != node then temp else old(n.right))
        && n.left == (if n == node then old(temp.right)
                       else if up && n == p && old(n.left) == node then temp else old(n.left))
        && n.parent == (if n == node then temp else if n == temp then p
                        else if n == old(temp.right) then node else old(n.parent))
        && n.hi == (if n == temp then old(node.hi) else old(n.hi))
        && n.lo == (if n == node then temp.pos + 1 else old(n.lo))
        && n.pos == old(n.pos)
    }

    method RotateRight(node: Node)
      requires Shape() && node in nodes && node.left != sentinel
      modifies `root, nodes`left, nodes`right, nodes`parent, nodes`lo, nodes`hi
      ensures Shape()
      ensures old(node.left) in nodes && RotatedRight(node, old(node.left))
    {
      assert Linked(node);
      ghost var temp := node.left;
      RelinkRight(node);
      RotatedRightShape(node, temp);
    }

    method RelinkRight(node: Node)
      requires sentinel !in nodes && node in nodes && Linked(node)
      requires node.left != sentinel && Linked(node.left)
      requires node != root ==> Linked(node.parent)
      requires node.left.right != sentinel ==> Linked(node.left.right)
      modifies `root, nodes`left, nodes`right, nodes`parent, nodes`lo, nodes`hi
      ensures old(node.left) in nodes && RotatedRight(node, old(node.left))
    {
      var temp := node.left;
      TurnRight(node, temp);
      node.lo, temp.hi := temp.pos + 1, node.hi;
    }

    /** The pointer updates of the rotation. */
    method TurnRight(node: Node, temp: Node)
      requires node.left == temp && temp != node && temp.right != null && temp.right != node && temp.right != temp
      requires node != root ==> node.parent != null && node.parent != node && node.parent != temp
      requires node != root ==> node.parent != temp.right && (node.parent.left == node || node.parent.right == node)
      modifies `root, node`left, node`parent, temp`right, temp`parent
      modifies (if temp.right != sentinel then {temp.right} else {})`parent
      modifies (if node != root then {node.parent} else {})`left
      modifies (if node != root then {node.parent} else {})`right
      ensures root == (if node == old(root) then temp else old(root))
      ensures node.left == old(temp.right) && node.parent == temp && temp.right == node
      ensures temp.parent == old(node.parent)
      ensures old(temp.right) != sentinel ==> old(temp.right).parent == node
      ensures var p := old(node.parent);
        node != old(root) ==>
          (p.left == (if old(p.left) == node then temp else old(p.left))
           && p.right == (if old(p.left) == node then old(p.right) else temp))
    {
      node.left := temp.right;
      if temp.right != sentinel {
        temp.right.parent := node;
      }
      temp.parent := node.parent;
      Supplant(node, temp);
      temp.right := node;
      node.parent := temp;
    }

    twostate lemma RotatedRightShape(node: Node, new temp: Node)
      requires old(Shape()) && node in old(nodes) && temp in old(nodes) && RotatedRight(node, temp) && temp != sentinel
      ensures Shape()
    {
      assert old(Linked(node)) && old(Linked(temp));
      forall n | n in nodes ensures Linked(n) {
        if n == node {
          RotatedRightLinked1(node, temp);
        } else if n == temp {
          RotatedRightLinked2(node, temp);
        } else {
          RotatedRightLinked3(node, temp, n);
        }
      }
    }

    twostate lemma RotatedRightLinked1(node: Node, new temp: Node)
      requires node in old(nodes) && temp in old(nodes) && nodes == old(nodes)
      requires sentinel !in nodes && temp != sentinel && RotatedRight(node, temp)
      requires old(Linked(node)) && old(Linked(temp))
      requires old(temp.right) != sentinel ==> old(Linked(temp.right))
      requires old(node.right) != sentinel ==> old(Linked(node.right))
      ensures Linked(node)
    {}

    twostate lemma RotatedRightLinked2(node: Node, new temp: Node)
      requires node in old(nodes) && temp in old(nodes) && nodes == old(nodes)
      requires sentinel !in nodes && temp != sentinel && RotatedRight(node, temp)
      requires old(Linked(node)) && old(Linked(temp))
      requires node != old(root) ==> old(Linked(node.parent))
      requires old(temp.left) != sentinel ==> old(Linked(temp.left))
      ensures Linked(temp)
    {}

    twostate lemma RotatedRightLinked3(node: Node, new temp: Node, new n: Node)
      requires node in old(nodes) && temp in old(nodes) && nodes == old(nodes)
      requires sentinel !in nodes && temp != sentinel && RotatedRight(node, temp)
      requires old(Linked(node)) && old(Linked(temp)) && old(Rooted())
      requires node != old(root) ==> old(Linked(node.parent))
      requires old(temp.right) != sentinel ==> old(Linked(temp.right))
      requires n in nodes && n != node && n != temp
      requires old(Linked(n))
      requires old(n.right) != sentinel ==> old(Linked(n.right))
      requires old(n.left) != sentinel ==> old(Linked(n.left))
      requires n != old(root) ==> old(Linked(n.parent))
      ensures Linked(n)
    {}

    // ----- Colours -----

    /** The black height of child c of n; the node x, if any, is one black short below its parent. */
    ghost function Slot(n: Node, c: Node, x: Node?): int
      reads c, x
    {
      c.bh + if c == x && x.parent == n then 1 else 0
    }

    /** Equal black heights below n, up to the shortage at x; no red child of a red n, except
        that v may be red below a red parent and x may be a red parent. */
    ghost predicate Colored(n: Node, x: Node?, v: Node?)
      reads this, nodes, sentinel, n, x
    {
      && (n.left == sentinel || n.left in nodes) && (n.right == sentinel || n.right in nodes)
      && 0 <= n.bh == Slot(n, n.left, x) + (if n.red then 0 else 1)
      && Slot(n, n.left, x) == Slot(n, n.right, x)
      && (n.red && n != x ==> (n.left == v || !n.left.red) && (n.right == v || !n.right.red))
    }

    ghost predicate Colors(x: Node?, v: Node?)
      reads this, nodes, sentinel, x
    {
      && sentinel.bh == 0 && !sentinel.red
      && forall n {:trigger Colored(n, x, v)} :: n in nodes ==> Colored(n, x, v)
    }

    ghost predicate Valid()
      reads this, nodes, sentinel
    {
      Shape() && Colors(null, null) && !root.red
    }

    // ----- How far it is to the root -----

    /** More than the number of nodes on any way down from n. */
    ghost function Level(n: Node): int
      reads n
    {
      2 * n.bh + if n.red then 1 else 0
    }

    /** Every step down from n leads to a lower level. */
    lemma ChildBelow(n: Node)
      requires Colors(null, null) && n in nodes
      ensures Level(n) > 0 && (n.left in nodes ==> Level(n.left) < Level(n))
      ensures (n.right in nodes ==> Level(n.right) < Level(n))
    {
      assert Colored(n, null, null);
      assert n.left in nodes ==> Colored(n.left, null, null);
      assert n.right in nodes ==> Colored(n.right, null, null);
    }

    lemma RootLevel()
      requires !root.red
      ensures Level(root) == 2 * root.bh
    {}

    lemma {:induction false} BelowRoot(n: Node)
      requires Shape() && Colors(null, null) && n in nodes
      ensures root in nodes && n.bh <= root.bh && Level(n) <= Level(root)
      decreases |order| - (n.hi - n.lo)
    {
      assert Linked(n) && Colored(n, null, null);
      if n != root {
        assert Linked(n.parent) && Colored(n.parent, null, null);
        ChildBelow(n.parent);
        BelowRoot(n.parent);
      }
    }

    // ----- Insertion -----

    predicate Less(a: Key, b: Key) {
      if timerWalk then TimerLess(a, b) else a < b
    }

    /** Exactly the first k keys are not above the given one. */
    ghost predicate SplitsAt(key: Key, k: int)
      reads this, nodes
    {
      && Indexed() && 0 <= k <= |order|
      && (forall i {:trigger order[i]} :: 0 <= i < |order| ==> (i < k <==> !Less(key, order[i].key)))
    }

    /** The position a new leaf below temp takes in the sequence. */
    ghost function Gap(temp: Node, goLeft: bool): int
      reads temp
    {
      if goLeft then temp.pos else temp.pos + 1
    }

    /** A loop that goes down from temp to a missing child, right past equal keys. */
    method WalkValue(temp0: Node, key: Key) returns (temp: Node, goLeft: bool, ghost steps: nat)
      requires Shape() && temp0 == root && root != sentinel && !timerWalk
      ensures temp in nodes && (if goLeft then temp.left == sentinel else temp.right == sentinel)
      ensures forall k {:trigger SplitsAt(key, k)} :: SplitsAt(key, k) ==> k == Gap(temp, goLeft)
      ensures Colors(null, null) ==> steps <= Level(root)
    {
      temp, steps := temp0, 0;
      while true
        invariant temp in nodes && (Colors(null, null) ==> steps + Level(temp) <= Level(root))
        invariant forall k {:trigger SplitsAt(key, k)} :: SplitsAt(key, k) ==> temp.lo <= k <= temp.hi
        decreases temp.hi - temp.lo
      {
        assert Linked(temp) && order[temp.pos] == temp;
        if Colors(null, null) {
          ChildBelow(temp);
        }
        steps := steps + 1;
        goLeft := key < temp.key;
        var p := if goLeft then temp.left else temp.right;
        if p == sentinel {
          break;
        }
        assert Linked(p);
        temp := p;
      }
    }

    /** The same loop with the timer order. */
    method WalkTimerValue(temp0: Node, key: Key) returns (temp: Node, goLeft: bool, ghost steps: nat)
      requires Shape() && temp0 == root && root != sentinel && timerWalk
      ensures temp in nodes && (if goLeft then temp.left == sentinel else temp.right == sentinel)
      ensures forall k {:trigger SplitsAt(key, k)} :: SplitsAt(key, k) ==> k == Gap(temp, goLeft)
      ensures Colors(null, null) ==> steps <= Level(root)
    {
      temp, steps := temp0, 0;
      while true
        invariant temp in nodes && (Colors(null, null) ==> steps + Level(temp) <= Level(root))
        invariant forall k {:trigger SplitsAt(key, k)} :: SplitsAt(key, k) ==> temp.lo <= k <= temp.hi
        decreases temp.hi - temp.lo
      {
        assert Linked(temp) && order[temp.pos] == temp;
        if Colors(null, null) {
          ChildBelow(temp);
        }
        steps := steps + 1;
        goLeft := ToInt((key - temp.key) % 0x1_0000_0000_0000_0000) < 0;
        var p := if goLeft then temp.left else temp.right;
        if p == sentinel {
          break;
        }
        assert Linked(p);
        temp := p;
      }
    }

    /** v moves up by one when an element is put at r; the index r itself only if incl. */
    ghost function Shifted(v: int, r: int, incl: bool): int {
      if r < v || (incl && v == r) then v + 1 else v
    }

    twostate predicate Attached(node: Node, new temp: Node, goLeft: bool, r: int)
      reads this, nodes
    {
      && node !in old(nodes) && temp in old(nodes) && nodes == old(nodes) + {node} && root == old(root)
      && r == old(Gap(temp, goLeft)) && 0 <= r <= |old(order)|
      && order == old(order)[..r] + [node] + old(order)[r..]
      && node.left == sentinel && node.right == sentinel && node.parent == temp
      && node.pos == node.lo == r && node.hi == r + 1
      && forall n {:trigger n in old(nodes)} :: n in old(nodes) ==>
        && n.left == (if n == temp && goLeft then node else old(n.left))
        && n.right == (if n == temp && !goLeft then node else old(n.right))
        && n.parent == old(n.parent)
        && n.pos == Shifted(old(n.pos), r, true)
        && n.lo == Shifted(old(n.lo), r, !goLeft)
        && n.hi == Shifted(old(n.hi), r, !goLeft)
    }

    ghost method MakeRoom(r: int, incl: bool)
      modifies nodes`pos, nodes`lo, nodes`hi
      ensures forall n {:trigger n in nodes} :: n in nodes ==>
        && n.pos == Shifted(old(n.pos), r, true)
        && n.lo == Shifted(old(n.lo), r, incl)
        && n.hi == Shifted(old(n.hi), r, incl)
    {
      forall n | n in nodes { n.pos := Shifted(n.pos, r, true); }
      forall n | n in nodes { n.lo := Shifted(n.lo, r, incl); }
      forall n | n in nodes { n.hi := Shifted(n.hi, r, incl); }
    }

    method Attach(node: Node, temp: Node, goLeft: bool)
      requires Shape() && temp in nodes && node !in nodes && node != sentinel
      requires if goLeft then temp.left == sentinel else temp.right == sentinel
      modifies `order, `nodes, nodes`left, nodes`right, nodes`pos, nodes`lo, nodes`hi
      modifies node`left, node`right, node`parent, node`red, node`pos, node`lo, node`hi, node`bh
      ensures Attached(node, temp, goLeft, old(Gap(temp, goLeft)))
      ensures node.red && node.bh == 0
    {
      ghost var r := Gap(temp, goLeft);
      assert Linked(temp);
      MakeRoom(r, !goLeft);
      Hang(node, temp, goLeft);
      node.pos, node.lo, node.hi, node.bh := r, r, r + 1, 0;
      order := order[..r] + [node] + order[r..];
      nodes := nodes + {node};
    }

    /** The links of the new leaf. */
    method Hang(node: Node, temp: Node, goLeft: bool)
      requires node != temp
      modifies temp`left, temp`right, node`left, node`right, node`parent, node`red
      ensures temp.left == (if goLeft then node else old(temp.left))
      ensures temp.right == (if goLeft then old(temp.right) else node)
      ensures node.parent == temp && node.left == sentinel && node.right == sentinel && node.red
    {
      if goLeft {
        temp.left := node;
      } else {
        temp.right := node;
      }
      node.parent := temp;
      node.left := sentinel;
      node.right := sentinel;
      node.red := true;
    }

    twostate lemma AttachedShape(node: Node, new temp: Node, new goLeft: bool, new r: int)
      requires old(Shape()) && node != sentinel && temp in old(nodes) && Attached(node, temp, goLeft, r)
      requires old(if goLeft then temp.left == sentinel else temp.right == sentinel)
      ensures Shape()
    {
      assert old(Linked(temp));
      AttachedIndexed(node, temp, goLeft, r);
      forall n | n in nodes ensures Linked(n) {
        if n != node {
          AttachedLinked(node, temp, goLeft, r, n);
        }
      }
    }

    twostate lemma AttachedIndexed(node: Node, new temp: Node, new goLeft: bool, new r: int)
      requires old(Indexed()) && node != sentinel && temp in old(nodes) && Attached(node, temp, goLeft, r)
      ensures Indexed()
    {
      forall n | n in nodes ensures 0 <= n.pos < |order| && order[n.pos] == n {
        assert n == node || n in old(nodes);
      }
      forall i | 0 <= i < |order| ensures order[i] in nodes && order[i].pos == i {
        if i != r {
          var j := if i < r then i else i - 1;
          assert order[i] == old(order)[j] && old(order)[j] in old(nodes);
        }
      }
    }

    twostate lemma AttachedLinked(node: Node, new temp: Node, new goLeft: bool, new r: int, new n: Node)
      requires sentinel !in nodes && temp in old(nodes) && n in old(nodes) && Attached(node, temp, goLeft, r)
      requires old(if goLeft then temp.left == sentinel else temp.right == sentinel)
      requires old(Linked(n)) && old(Linked(temp)) && (old(n.pos) == old(temp.pos) ==> n == temp)
      ensures Linked(n)
    {}

    twostate lemma AttachedColors(node: Node, new temp: Node, new goLeft: bool, new r: int)
      requires old(Shape()) && old(Colors(null, null)) && sentinel !in nodes && temp in old(nodes)
      requires Attached(node, temp, goLeft, r) && node.red && node.bh == 0
      requires old(if goLeft then temp.left == sentinel else temp.right == sentinel)
      requires sentinel.bh == old(sentinel.bh) && sentinel.red == old(sentinel.red)
      requires forall n {:trigger n in old(nodes)} :: n in old(nodes) ==> n.red == old(n.red) && n.bh == old(n.bh)
      ensures Colors(null, node)
    {
      forall n | n in nodes ensures Colored(n, null, node) {
        if n != node {
          assert old(Colored(n, null, null)) && old(Linked(n));
        }
      }
    }

    /** cc_rbtree_insert */
    method Insert(node: Node) returns (ghost steps: nat, ghost passes: nat)
      requires Valid() && node !in nodes && node != sentinel
      modifies `root, `order, `nodes, nodes`left, nodes`right, nodes`parent, nodes`red
      modifies nodes`pos, nodes`lo, nodes`hi, nodes`bh
      modifies node`left, node`right, node`parent, node`red, node`pos, node`lo, node`hi, node`bh
      ensures Valid() && nodes == old(nodes) + {node} && 0 <= node.pos <= |old(order)|
      ensures order == old(order)[..node.pos] + [node] + old(order)[node.pos..]
      ensures forall k :: old(SplitsAt(node.key, k)) ==> k == node.pos
      ensures steps <= 2 * old(root.bh) && passes <= root.bh + 1
    {
      steps, passes := 0, 0;
      if root == sentinel {
        InsertFirst(node);
        return;
      }
      var temp, goLeft;
      if timerWalk {
        temp, goLeft, steps := WalkTimerValue(root, node.key);
      } else {
        temp, goLeft, steps := WalkValue(root, node.key);
      }
      forall k | old(SplitsAt(node.key, k)) ensures k == Gap(temp, goLeft) {
        assert SplitsAt(node.key, k);
      }
      passes := InsertBelow(node, temp, goLeft);
    }

    /** The first node of a tree is its black root. */
    method InsertFirst(node: Node)
      requires Valid() && node !in nodes && node != sentinel && root == sentinel
      modifies `root, `order, `nodes
      modifies node`left, node`right, node`parent, node`red, node`pos, node`lo, node`hi, node`bh
      ensures Valid() && root == node && nodes == {node} && order == [node] && node.pos == 0 && root.bh == 1
      ensures old(order) == [] && old(nodes) == {}
    {
      node.parent := null;
      node.left := sentinel;
      node.right := sentinel;
      node.red := false;
      root := node;
      order, nodes := [node], {node};
      node.pos, node.lo, node.hi, node.bh := 0, 0, 1, 1;
    }

    method InsertBelow(node: Node, temp: Node, goLeft: bool) returns (ghost passes: nat)
      requires Valid() && temp in nodes && node !in nodes && node != sentinel
      requires if goLeft then temp.left == sentinel else temp.right == sentinel
      modifies `root, `order, `nodes, nodes`left, nodes`right, nodes`parent, nodes`red
      modifies nodes`pos, nodes`lo, nodes`hi, nodes`bh
      modifies node`left, node`right, node`parent, node`red, node`pos, node`lo, node`hi, node`bh
      ensures Valid() && nodes == old(nodes) + {node} && node.pos == old(Gap(temp, goLeft))
      ensures 0 <= node.pos <= |old(order)| && passes <= root.bh + 1
      ensures order == old(order)[..node.pos] + [node] + old(order)[node.pos..]
    {
      ghost var r := Gap(temp, goLeft);
      Attach(node, temp, goLeft);
      AttachedShape(node, temp, goLeft, r);
      AttachedColors(node, temp, goLeft, r);
      assert Linked(node);
      passes := InsertFixup(node);
    }

    twostate predicate SameLinks()
      reads this, nodes
    {
      && nodes == old(nodes) && order == old(order) && root == old(root)
      && forall n {:trigger n in nodes} :: n in nodes ==>
        && n.left == old(n.left) && n.right == old(n.right) && n.parent == old(n.parent)
        && n.pos == old(n.pos) && n.lo == old(n.lo) && n.hi == old(n.hi)
    }

    twostate lemma SameShape()
      requires old(Shape()) && SameLinks()
      ensures Shape()
    {
      forall n | n in nodes ensures Linked(n) {
        assert old(Linked(n));
      }
    }

    /** Colours and black heights changed at a, b and c only. */
    twostate predicate Repainted(a: Node, b: Node, new c: Node?)
      reads this, nodes, sentinel
    {
      && nodes == old(nodes)
      && sentinel.bh == old(sentinel.bh) && sentinel.red == old(sentinel.red) && sentinel.parent == old(sentinel.parent)
      && forall n {:trigger n in nodes} :: n in nodes && n != a && n != b && n != c ==>
        n.red == old(n.red) && n.bh == old(n.bh)
    }

    /** A rotation that leaves the black height of the rotated place as it was, and does not
        make it red, keeps the colour invariant at every node outside it. */
    twostate lemma RotatedLeftColored(node: Node, new temp: Node, new c: Node?, new n: Node, new x: Node?, new v: Node?)
      requires node in old(nodes) && temp in old(nodes) && n in old(nodes) && temp != sentinel && sentinel !in nodes
      requires RotatedLeft(node, temp) && Repainted(node, temp, c) && old(Rooted())
      requires !sentinel.red && temp.bh == old(node.bh) && (temp.red ==> old(node.red))
      requires n != node && n != temp && n != c && old(Linked(n)) && old(Linked(node)) && old(Linked(temp))
      requires c == null || (c in old(nodes) && old(c.parent) == temp)
      requires x == null || x == sentinel || (x in old(nodes) && x != node && x != temp && x != old(temp.left))
      requires v == null || v == sentinel
          || (v in old(nodes) && (old(v.parent) == node || old(v.parent) == temp || !old(v.red)))
      requires old(Colored(n, x, v)) && (n == x ==> !n.red)
      ensures Colored(n, x, null)
    {
      RotatedLeftChild(node, temp, c, n, x, v, old(n.left), n.left);
      RotatedLeftChild(node, temp, c, n, x, v, old(n.right), n.right);
      hide Linked, RotatedLeft, Slot;
    }

    /** One child of a node outside the rotation: the same subtree as before, or the rotated one. */
    twostate lemma RotatedLeftChild(node: Node, new temp: Node, new c: Node?, new n: Node, new x: Node?, new v: Node?,
                                 new a: Node, new b: Node)
      requires node in old(nodes) && temp in old(nodes) && n in old(nodes) && temp != sentinel && sentinel !in nodes
      requires RotatedLeft(node, temp) && Repainted(node, temp, c) && old(Rooted())
      requires !sentinel.red && temp.bh == old(node.bh) && (temp.red ==> old(node.red))
      requires n != node && n != temp && n != c && old(Linked(n)) && old(Linked(node)) && old(Linked(temp))
      requires c == null || (c in old(nodes) && old(c.parent) == temp)
      requires x == null || x == sentinel || (x in old(nodes) && x != node && x != temp && x != old(temp.left))
      requires v == null || v == sentinel
          || (v in old(nodes) && (old(v.parent) == node || old(v.parent) == temp || !old(v.red)))
      requires (a == old(n.left) && b == n.left) || (a == old(n.right) && b == n.right)
      requires a == sentinel || a in old(nodes)
      ensures (b == sentinel || b in nodes) && Slot(n, b, x) == old(Slot(n, a, x))
      ensures old(a == v || !a.red) ==> !b.red
    {}

    twostate lemma RotatedRightColored(node: Node, new temp: Node, new c: Node?, new n: Node, new x: Node?,
                                       new v: Node?)
      requires node in old(nodes) && temp in old(nodes) && n in old(nodes) && temp != sentinel && sentinel !in nodes
      requires RotatedRight(node, temp) && Repainted(node, temp, c) && old(Rooted())
      requires !sentinel.red && temp.bh == old(node.bh) && (temp.red ==> old(node.red))
      requires n != node && n != temp && n != c && old(Linked(n)) && old(Linked(node)) && old(Linked(temp))
      requires c == null || (c in old(nodes) && old(c.parent) == temp)
      requires x == null || x == sentinel || (x in old(nodes) && x != node && x != temp && x != old(temp.right))
      requires v == null || v == sentinel
          || (v in old(nodes) && (old(v.parent) == node || old(v.parent) == temp || !old(v.red)))
      requires old(Colored(n, x, v)) && (n == x ==> !n.red)
      ensures Colored(n, x, null)
    {
      RotatedRightChild(node, temp, c, n, x, v, old(n.left), n.left);
      RotatedRightChild(node, temp, c, n, x, v, old(n.right), n.right);
      hide Linked, RotatedRight, Slot;
    }

    /** One child of a node outside the rotation: the same subtree as before, or the rotated one. */
    twostate lemma RotatedRightChild(node: Node, new temp: Node, new c: Node?, new n: Node, new x: Node?, new v: Node?,
                                  new a: Node, new b: Node)
      requires node in old(nodes) && temp in old(nodes) && n in old(nodes) && temp != sentinel && sentinel !in nodes
      requires RotatedRight(node, temp) && Repainted(node, temp, c) && old(Rooted())
      requires !sentinel.red && temp.bh == old(node.bh) && (temp.red ==> old(node.red))
      requires n != node && n != temp && n != c && old(Linked(n)) && old(Linked(node)) && old(Linked(temp))
      requires c == null || (c in old(nodes) && old(c.parent) == temp)
      requires x == null || x == sentinel || (x in old(nodes) && x != node && x != temp && x != old(temp.right))
      requires v == null || v == sentinel
          || (v in old(nodes) && (old(v.parent) == node || old(v.parent) == temp || !old(v.red)))
      requires (a == old(n.left) && b == n.left) || (a == old(n.right) && b == n.right)
      requires a == sentinel || a in old(nodes)
      ensures (b == sentinel || b in nodes) && Slot(n, b, x) == old(Slot(n, a, x))
      ensures old(a == v || !a.red) ==> !b.red
    {}

    /** What holds between two passes of the insertion loop: node is red, possibly below a red parent. */
    ghost predicate Inserting(node: Node)
      reads this, nodes, sentinel
    {
      && Shape() && Colors(null, node)
      && node in nodes && node.red
      && (node != root ==> !root.red && node.parent in nodes)
    }

    /** A red node other than the root that has a red parent also has a black grandparent. */
    lemma Grandparent(node: Node)
      requires Inserting(node) && node != root && node.parent != null && node.parent.red
      ensures node.parent in nodes && node.parent != root && node.parent.parent in nodes && !node.parent.parent.red
      ensures node.parent.left == node || node.parent.right == node
      ensures node.parent.parent.left == node.parent || node.parent.parent.right == node.parent
      ensures node.parent.parent != node && node.parent.parent.left != node.parent.parent.right
    {
      assert Linked(node) && Linked(node.parent) && Linked(node.parent.parent);
      assert Colored(node.parent, null, node) && Colored(node.parent.parent, null, node);
    }

    /** Red uncle: the grandparent's black moves down to both its children. */
    method InsertRecolor(node: Node, temp: Node)
      requires Inserting(node) && node != root && node.parent in nodes && node.parent.red && node.parent.parent in nodes
      requires temp in nodes && temp.red && node.parent != temp && temp.parent == node.parent.parent
      modifies nodes`red, nodes`bh
      ensures SameLinks() && Inserting(old(node.parent.parent)) && old(node.parent.parent).bh == old(node.bh) + 1
    {
      Grandparent(node);
      ghost var p, g := node.parent, node.parent.parent;
      assert Linked(temp) && Colored(p, null, node) && Colored(g, null, node);
      node.parent.red := false;
      temp.red := false;
      node.parent.parent.red := true;
      p.bh, temp.bh := p.bh + 1, temp.bh + 1;
      InsertRecolorColors(node, p, temp, g);
    }

    twostate lemma InsertRecolorColors(node: Node, new p: Node, new u: Node, new g: Node)
      requires p in old(nodes) && u in old(nodes) && g in old(nodes)
      requires SameLinks() && Repainted(p, u, g) && p != u && p != g && u != g
      requires !p.red && !u.red && g.red && p.bh == old(p.bh) + 1 && u.bh == old(u.bh) + 1 && g.bh == old(g.bh)
      requires old(Inserting(node)) && old(p.parent) == g && old(u.parent) == g && old(p.red) && old(u.red)
      requires !old(g.red)
      requires old(node.parent) == p && old(g.left == p || g.right == p) && old(g.left == u || g.right == u)
      requires old(node != root)
      ensures Inserting(g)
    {
      SameShape();
      assert old(Linked(p)) && old(Linked(u)) && old(Linked(g));
      forall n | n in nodes ensures Colored(n, null, g) {
        RecoloredColor(node, p, u, g, n);
      }
    }

    twostate lemma RecoloredColor(node: Node, new p: Node, new u: Node, new g: Node, new n: Node)
      requires p in old(nodes) && u in old(nodes) && g in old(nodes) && n in old(nodes) && sentinel !in nodes
      requires SameLinks() && Repainted(p, u, g) && p != u && p != g && u != g
      requires !p.red && !u.red && g.red && p.bh == old(p.bh) + 1 && u.bh == old(u.bh) + 1 && g.bh == old(g.bh)
      requires old(p.parent) == g && old(u.parent) == g && old(p.red) && old(u.red) && !old(g.red)
      requires old(Linked(g)) && old(Linked(p)) && old(Linked(u)) && old(Linked(n))
      requires !sentinel.red && old(node.parent) == p && old(g.left == p || g.right == p)
      requires old(g.left == u || g.right == u)
      requires old(Colored(n, null, node))
      ensures Colored(n, null, g)
    {}

    /** node is the right child of a left child: turn its parent so that both lie on one side. */
    method InsertInnerLeft(p: Node, ghost node: Node)
      requires Inserting(node) && node != root && node.parent == p && p in nodes && p.red && p.right == node
      modifies `root, nodes`left, nodes`right, nodes`parent, nodes`lo, nodes`hi
      ensures p.bh == old(node.bh)
      ensures Inserting(p) && RotatedLeft(p, node) && p.red && p != root && root == old(root)
    {
      Grandparent(node);
      assert Linked(p) && Linked(node) && Colored(p, null, node) && Colored(node, null, node);
      RotateLeft(p);
      forall n | n in nodes ensures Colored(n, null, p) {
        if n != p && n != node {
          RotatedLeftColored(p, node, null, n, null, node);
        }
      }
    }

    /** node is the left child of a right child: turn its parent so that both lie on one side. */
    method InsertInnerRight(p: Node, ghost node: Node)
      requires Inserting(node) && node != root && node.parent == p && p in nodes && p.red && p.left == node
      modifies `root, nodes`left, nodes`right, nodes`parent, nodes`lo, nodes`hi
      ensures p.bh == old(node.bh)
      ensures Inserting(p) && RotatedRight(p, node) && p.red && p != root && root == old(root)
    {
      Grandparent(node);
      assert Linked(p) && Linked(node) && Colored(p, null, node) && Colored(node, null, node);
      RotateRight(p);
      forall n | n in nodes ensures Colored(n, null, p) {
        if n != p && n != node {
          RotatedRightColored(p, node, null, n, null, node);
        }
      }
    }

    /** node is the left child of a left child, with a black uncle: parent and grandparent
        exchange colours and the grandparent is turned down to the other side. */
    method InsertOuterLeft(node: Node)
      requires Inserting(node) && node != root && node.parent in nodes && node.parent.red
      requires node.parent.left == node && node.parent.parent in nodes && node.parent.parent.left == node.parent
      requires node.parent.parent.right != null && !node.parent.parent.right.red
      modifies `root, nodes`left, nodes`right, nodes`parent, nodes`lo, nodes`hi, nodes`red, nodes`bh
      ensures Inserting(node) && node != root && node.parent in nodes && !node.parent.red && node.bh == old(node.bh)
    {
      Grandparent(node);
      var p, g := node.parent, node.parent.parent;
      InsertRepaint(node, p, g);
      RotateRight(g);
      assert RotatedRight(g, p);
      assert Repainted(g, p, null);
      InsertOuterLeftColors(node, p, g);
    }

    method InsertRepaint(ghost node: Node, p: Node, g: Node)
      requires Shape() && p in nodes && g in nodes && p != g
      modifies p`red, p`bh, g`red, g`bh
      ensures Shape() && SameLinks() && Repainted(g, p, null)
      ensures !p.red && g.red && p.bh == old(p.bh) + 1 && g.bh == old(g.bh) - 1
    {
      p.red := false;
      g.red := true;
      p.bh, g.bh := p.bh + 1, g.bh - 1;
      SameShape();
    }

    twostate lemma InsertOuterLeftColors(node: Node, new p: Node, new g: Node)
      requires node in old(nodes) && p in old(nodes) && g in old(nodes) && p != sentinel && sentinel !in nodes
      requires old(Inserting(node)) && old(node.parent) == p && old(p.left) == node && old(g.left) == p
      requires old(p.parent) == g
      requires RotatedRight(g, p) && Repainted(g, p, null) && Shape()
      requires !p.red && g.red && p.bh == old(p.bh) + 1 && g.bh == old(g.bh) - 1 && old(p.red) && !old(g.red)
      requires old(g.right != null && !g.right.red)
      ensures Inserting(node) && node.parent == p && node != root
    {
      assert old(Linked(node)) && old(Linked(p)) && old(Linked(g)) && old(Colored(g, null, node));
      assert old(Colored(p, null, node));
      forall n | n in nodes ensures Colored(n, null, node) {
        if n != p && n != g {
          RotatedRightColored(g, p, null, n, null, node);
        }
      }
    }
    /** node is the right child of a right child, with a black uncle: parent and grandparent
        exchange colours and the grandparent is turned down to the other side. */
    method InsertOuterRight(node: Node)
      requires Inserting(node) && node != root && node.parent in nodes && node.parent.red
      requires node.parent.right == node && node.parent.parent in nodes && node.parent.parent.right == node.parent
      requires node.parent.parent.left != null && !node.parent.parent.left.red
      modifies `root, nodes`left, nodes`right, nodes`parent, nodes`lo, nodes`hi, nodes`red, nodes`bh
      ensures Inserting(node) && node != root && node.parent in nodes && !node.parent.red && node.bh == old(node.bh)
    {
      Grandparent(node);
      var p, g := node.parent, node.parent.parent;
      InsertRepaint(node, p, g);
      RotateLeft(g);
      assert RotatedLeft(g, p);
      assert Repainted(g, p, null);
      InsertOuterRightColors(node, p, g);
    }

    twostate lemma InsertOuterRightColors(node: Node, new p: Node, new g: Node)
      requires node in old(nodes) && p in old(nodes) && g in old(nodes) && p != sentinel && sentinel !in nodes
      requires old(Inserting(node)) && old(node.parent) == p && old(p.right) == node && old(g.right) == p
      requires old(p.parent) == g
      requires RotatedLeft(g, p) && Repainted(g, p, null) && Shape()
      requires !p.red && g.red && p.bh == old(p.bh) + 1 && g.bh == old(g.bh) - 1 && old(p.red) && !old(g.red)
      requires old(g.left != null && !g.left.red)
      ensures Inserting(node) && node.parent == p && node != root
    {
      assert old(Linked(node)) && old(Linked(p)) && old(Linked(g)) && old(Colored(g, null, node));
      assert old(Colored(p, null, node));
      forall n | n in nodes ensures Colored(n, null, node) {
        if n != p && n != g {
          RotatedLeftColored(g, p, null, n, null, node);
        }
      }
    }

    method InsertBlacken(ghost node: Node)
      requires Inserting(node) && (node == root || (node.parent in nodes && !node.parent.red))
      modifies root`red, root`bh
      ensures Valid() && SameLinks() && node.bh >= old(node.bh)
    {
      assert Linked(node) && Linked(root);
      if root.red {
        root.bh := root.bh + 1;
      }
      root.red := false;
      SameShape();
      forall n | n in nodes ensures Colored(n, null, null) {
        assert old(Colored(n, null, node)) && old(Linked(n));
      }
    }

    /** What is left to do: nothing once node's parent is black, else at most one pass for
        every node outside node's subtree. */
    ghost function Pending(node: Node): int
      requires node != root ==> node.parent in nodes
      reads this, nodes, node
    {
      if node == root || !node.parent.red then 0 else 1 + |order| - (node.hi - node.lo)
    }

    method InsertPassLeft(node: Node) returns (next: Node)
      requires Inserting(node) && node != root && node.parent.red
      requires node.parent.parent in nodes && node.parent == node.parent.parent.left
      modifies `root, nodes`left, nodes`right, nodes`parent, nodes`lo, nodes`hi, nodes`red, nodes`bh
      ensures Inserting(next) && 0 <= Pending(next) < old(Pending(node))
      ensures next.bh == old(node.bh) + if Pending(next) == 0 && next.bh == old(node.bh) then 0 else 1
    {
      Grandparent(node);
      next := node;
      var temp := node.parent.parent.right;
      assert Linked(node.parent.parent) && Linked(node.parent);
      if temp.red {
        InsertRecolor(next, temp);
        next := next.parent.parent;
        assert Linked(next);
      } else {
        if next == next.parent.right {
          next := next.parent;
          InsertInnerLeft(next, node);
        }
        InsertOuterLeft(next);
      }
    }

    method InsertPassRight(node: Node) returns (next: Node)
      requires Inserting(node) && node != root && node.parent.red
      requires node.parent.parent in nodes && node.parent == node.parent.parent.right
      modifies `root, nodes`left, nodes`right, nodes`parent, nodes`lo, nodes`hi, nodes`red, nodes`bh
      ensures Inserting(next) && 0 <= Pending(next) < old(Pending(node))
      ensures next.bh == old(node.bh) + if Pending(next) == 0 && next.bh == old(node.bh) then 0 else 1
    {
      Grandparent(node);
      next := node;
      var temp := node.parent.parent.left;
      assert Linked(node.parent.parent) && Linked(node.parent);
      if temp.red {
        InsertRecolor(next, temp);
        next := next.parent.parent;
        assert Linked(next);
      } else {
        if next == next.parent.left {
          next := next.parent;
          InsertInnerRight(next, node);
        }
        InsertOuterRight(next);
      }
    }

    method InsertFixup(node0: Node) returns (ghost passes: nat)
      requires Inserting(node0)
      modifies `root, nodes`left, nodes`right, nodes`parent, nodes`lo, nodes`hi, nodes`red, nodes`bh
      ensures Valid() && passes <= root.bh + 1
    {
      var node := node0;
      passes := 0;
      assert Colored(node, null, node);
      while node != root && node.parent.red
        invariant Inserting(node)
        invariant passes <= node.bh + if Pending(node) == 0 then 1 else 0
        decreases Pending(node)
      {
        Grandparent(node);
        if node.parent == node.parent.parent.left {
          node := InsertPassLeft(node);
        } else {
          node := InsertPassRight(node);
        }
        passes := passes + 1;
      }
      InsertBlacken(node);
      BelowRoot(node);
    }

    // ----- Minimum -----

    /** cc_rbtree_min: the first node of a subtree */
    method Min(node0: Node) returns (node: Node, ghost steps: nat)
      requires Shape() && node0 in nodes
      ensures node in nodes && node.left == sentinel && node.pos == node.lo == node0.lo
      ensures node == order[node0.lo]
      ensures (node != node0 ==> node != root && node.parent in nodes && node.parent.left == node)
      ensures Colors(null, null) ==> steps < Level(node0)
    {
      node, steps := node0, 0;
      assert Linked(node);
      if Colors(null, null) {
        ChildBelow(node);
      }
      while node.left != sentinel
        invariant node in nodes && Linked(node) && node.lo == node0.lo
        invariant node != node0 ==> node != root && node.parent in nodes && node.parent.left == node
        invariant Colors(null, null) ==> steps + Level(node) <= Level(node0) && Level(node) > 0
        decreases node.hi - node.lo
      {
        assert Linked(node.left) && Rooted();
        if Colors(null, null) {
          ChildBelow(node);
          ChildBelow(node.left);
        }
        node := node.left;
        steps := steps + 1;
      }
    }

    // ----- Deletion: taking the node out -----

    /** v moves down by one when the element at r is taken out. */
    ghost function Dropped(v: int, r: int): int {
      if r < v then v - 1 else v
    }

    ghost method CloseGap(r: int)
      modifies nodes`pos, nodes`lo, nodes`hi
      ensures forall n {:trigger n in nodes} :: n in nodes ==>
        n.pos == Dropped(old(n.pos), r) && n.lo == Dropped(old(n.lo), r) && n.hi == Dropped(old(n.hi), r)
    {
      forall n | n in nodes { n.pos := Dropped(n.pos, r); }
      forall n | n in nodes { n.lo := Dropped(n.lo, r); }
      forall n | n in nodes { n.hi := Dropped(n.hi, r); }
    }

    twostate predicate Removed(node: Node)
      reads this, nodes
    {
      && node in old(nodes) && nodes == old(nodes) - {node} && 0 <= old(node.pos) < |old(order)|
      && order == old(order)[..old(node.pos)] + old(order)[old(node.pos) + 1..]
    }

    /** node had at most one child, temp (or the sentinel), which is now in its place. */
    twostate predicate SplicedLow(node: Node, new temp: Node)
      reads this, nodes
    {
      var p := old(node.parent);
      var up := node != old(root);
      && Removed(node)
      && root == (if up then old(root) else temp)
      && forall n {:trigger n in nodes} :: n in nodes ==>
        && n.left == (if up && n == p && old(n.left) == node then temp else old(n.left))
        && n.right == (if up && n == p && old(n.left) != node then temp else old(n.right))
        && n.parent == (if up && n == temp then p else old(n.parent))
        && n.pos == Dropped(old(n.pos), old(node.pos))
        && n.lo == Dropped(old(n.lo), old(node.pos))
        && n.hi == Dropped(old(n.hi), old(node.pos))
    }

    twostate lemma SplicedLowShape(node: Node, new temp: Node)
      requires old(Shape()) && node in old(nodes) && (temp in old(nodes) || temp == sentinel) && SplicedLow(node, temp)
      requires old(if node.left == sentinel then temp == node.right else node.right == sentinel && temp == node.left)
      ensures Shape()
    {
      assert old(Linked(node));
      RemovedIndexed(node);
      forall n | n in nodes ensures Linked(n) {
        if node != old(root) && n == old(node.parent) {
          SplicedLowLinked1(node, temp, n);
        } else {
          SplicedLowLinked2(node, temp, n);
        }
      }
      assert temp != sentinel ==> old(Linked(temp));
    }

    twostate lemma SplicedLowLinked1(node: Node, new temp: Node, new n: Node)
      requires node != old(root) && n == old(node.parent)
      requires n in old(nodes) && n in nodes && node in old(nodes) && SplicedLow(node, temp) && sentinel !in old(nodes)
      requires temp in old(nodes) || temp == sentinel
      requires old(if node.left == sentinel then temp == node.right else node.right == sentinel && temp == node.left)
      requires old(Rooted()) && old(Linked(node)) && old(Linked(n)) && old(n.pos) != old(node.pos)
      requires temp != sentinel ==> old(Linked(temp))
      requires node != old(root) ==> old(Linked(node.parent))
      requires n != old(root) ==> old(Linked(n.parent))
      ensures Linked(n)
    {}

    twostate lemma SplicedLowLinked2(node: Node, new temp: Node, new n: Node)
      requires node == old(root) || n != old(node.parent)
      requires n in old(nodes) && n in nodes && node in old(nodes) && SplicedLow(node, temp) && sentinel !in old(nodes)
      requires temp in old(nodes) || temp == sentinel
      requires old(if node.left == sentinel then temp == node.right else node.right == sentinel && temp == node.left)
      requires old(Rooted()) && old(Linked(node)) && old(Linked(n)) && old(n.pos) != old(node.pos)
      requires temp != sentinel ==> old(Linked(temp))
      requires node != old(root) ==> old(Linked(node.parent))
      requires n != old(root) ==> old(Linked(n.parent))
      ensures Linked(n)
    {}

    twostate lemma RemovedIndexed(node: Node)
      requires old(Indexed()) && Removed(node)
      requires forall n {:trigger n in nodes} :: n in nodes ==> n.pos == Dropped(old(n.pos), old(node.pos))
      ensures Indexed()
    {
      forall n | n in nodes ensures 0 <= n.pos < |order| && order[n.pos] == n {
        assert n in old(nodes);
      }
      forall i | 0 <= i < |order| ensures order[i] in nodes && order[i].pos == i {
        var j := if i < old(node.pos) then i else i + 1;
        assert order[i] == old(order)[j] && old(order)[j] in old(nodes);
      }
    }

    /** node had two children; subst, the first node of its right subtree, is now in the place
        of node, and temp, the right child of subst, in the place of subst. */
    /** node had two children; subst, the first node behind it, is now in its place and temp in that of subst. */
    twostate predicate SplicedHigh(node: Node, new subst: Node, new temp: Node)
      requires subst in old(nodes)
      reads this, nodes
    {
      Removed(node) && HighLinks(node, subst, temp, nodes) && HighLayout(node, subst)
    }

    /** The links of the remaining nodes s. */
    twostate predicate HighLinks(node: Node, new subst: Node, new temp: Node, new s: set<Node>)
      requires subst in old(nodes) && s <= old(nodes)
      reads `root, s`left, s`right, s`parent
    {
      var p := old(node.parent);
      var sp := old(subst.parent);
      var up := node != old(root);
      && root == (if up then old(root) else subst)
      && forall n {:trigger n in s} :: n in s ==>
        && n.left == (if n == subst then old(node.left) else if n == sp then temp
                      else if up && n == p && old(n.left) == node then subst else old(n.left))
        && n.right == (if n == subst then (if sp == node then temp else old(node.right))
                       else if up && n == p && old(n.left) != node then subst else old(n.right))
        && n.parent == (if n == subst then p
                        else if n == temp then (if sp == node then subst else sp)
                        else if n == old(node.left) || n == old(node.right) then subst else old(n.parent))
    }

    twostate predicate HighLayout(node: Node, new subst: Node)
      requires subst in old(nodes) && nodes <= old(nodes)
      reads this, nodes
    {
      forall n {:trigger n in nodes} :: n in nodes ==>
        && n.pos == Dropped(old(n.pos), old(node.pos))
        && n.lo == (if n == subst then old(node.lo) else Dropped(old(n.lo), old(subst.pos)))
        && n.hi == (if n == subst then old(node.hi) - 1 else Dropped(old(n.hi), old(subst.pos)))
    }

    /** subst is the first node of node's right subtree. */
    ghost predicate Successor(node: Node, subst: Node)
      reads this, nodes, node, subst
    {
      && node in nodes && subst in nodes && node.left != sentinel && node.right != sentinel
      && subst.left == sentinel && subst.pos == subst.lo == node.pos + 1 && subst != root
      && (if subst == node.right then subst.parent == node
          else (subst.parent in nodes && subst.parent != node && subst.parent.left == subst
                && subst.parent.pos > subst.pos))
    }

    twostate lemma SplicedHighShape(node: Node, new subst: Node, new temp: Node)
      requires old(Shape()) && node in old(nodes) && subst in old(nodes) && old(Successor(node, subst))
      requires (temp in old(nodes) || temp == sentinel) && temp == old(subst.right) && SplicedHigh(node, subst, temp)
      ensures Shape()
    {
      assert old(Linked(node)) && old(Linked(subst));
      RemovedIndexed(node);
      SplicedHighLinked1(node, subst, temp);
      forall n | n in nodes ensures Linked(n) {
        if n != subst {
          SplicedHighNode(node, subst, temp, n);
        }
      }
    }

    twostate lemma SplicedHighNode(node: Node, new subst: Node, new temp: Node, new n: Node)
      requires old(Shape()) && node in old(nodes) && subst in old(nodes) && old(Successor(node, subst))
      requires (temp in old(nodes) || temp == sentinel) && temp == old(subst.right) && SplicedHigh(node, subst, temp)
      requires n in nodes && n in old(nodes) && n != subst && n != node
      ensures Linked(n)
    {
      assert old(Linked(node)) && old(Linked(subst)) && old(Linked(n));
      if n == old(subst.parent) {
        SplicedHighLinked2(node, subst, temp, n);
      } else if node != old(root) && n == old(node.parent) {
        SplicedHighLinked3(node, subst, temp, n);
      } else {
        SplicedHighLinked4(node, subst, temp, n);
      }
    }

    twostate lemma SplicedHighLinked1(node: Node, new subst: Node, new temp: Node)
      requires node in old(nodes) && subst in old(nodes) && subst in nodes && sentinel !in old(nodes)
      requires old(Successor(node, subst))
      requires (temp in old(nodes) || temp == sentinel) && temp == old(subst.right) && SplicedHigh(node, subst, temp)
      requires old(Linked(node)) && old(Linked(subst)) && old(Linked(node.left)) && old(Linked(node.right))
      requires temp != sentinel ==> old(Linked(temp))
      requires node != old(root) ==> old(Linked(node.parent))
      ensures Linked(subst)
    {}

    twostate lemma SplicedHighLinked2(node: Node, new subst: Node, new temp: Node, new n: Node)
      requires node in old(nodes) && subst in old(nodes) && sentinel !in old(nodes) && old(Successor(node, subst))
      requires (temp in old(nodes) || temp == sentinel) && temp == old(subst.right) && SplicedHigh(node, subst, temp)
      requires n == old(subst.parent)
      requires old(subst.parent) in old(nodes) && old(Linked(subst.parent))
      requires n in old(nodes) && n in nodes && n != subst && old(n.pos) != old(node.pos)
      requires old(n.pos) != old(subst.pos)
      requires old(Rooted()) && old(Linked(node)) && old(Linked(subst)) && old(Linked(n))
      requires temp != sentinel ==> old(Linked(temp))
      requires node != old(root) ==> old(Linked(node.parent))
      requires n != old(root) ==> old(Linked(n.parent))
      requires old(n.left) != sentinel ==> old(Linked(n.left))
      requires old(n.right) != sentinel ==> old(Linked(n.right))
      ensures Linked(n)
    {}

    twostate lemma SplicedHighLinked3(node: Node, new subst: Node, new temp: Node, new n: Node)
      requires node in old(nodes) && subst in old(nodes) && sentinel !in old(nodes) && old(Successor(node, subst))
      requires (temp in old(nodes) || temp == sentinel) && temp == old(subst.right) && SplicedHigh(node, subst, temp)
      requires n == old(node.parent) && node != old(root)
      requires n in old(nodes) && n in nodes && n != subst && old(n.pos) != old(node.pos)
      requires old(n.pos) != old(subst.pos)
      requires old(node.right) in old(nodes) && old(Linked(node.right))
      requires old(Rooted()) && old(Linked(node)) && old(Linked(subst)) && old(Linked(n))
      requires temp != sentinel ==> old(Linked(temp))
      requires old(n.left) != sentinel ==> old(Linked(n.left))
      requires old(n.right) != sentinel ==> old(Linked(n.right))
      ensures Linked(n)
    {}

    twostate lemma SplicedHighLinked4(node: Node, new subst: Node, new temp: Node, new n: Node)
      requires node in old(nodes) && subst in old(nodes) && sentinel !in old(nodes) && old(Successor(node, subst))
      requires (temp in old(nodes) || temp == sentinel) && temp == old(subst.right) && SplicedHigh(node, subst, temp)
      requires n != old(subst.parent) && (node == old(root) || n != old(node.parent))
      requires n in old(nodes) && n in nodes && n != subst && old(n.pos) != old(node.pos)
      requires old(n.pos) != old(subst.pos)
      requires old(Rooted()) && old(Linked(node)) && old(Linked(subst)) && old(Linked(n))
      requires temp != sentinel ==> old(Linked(temp))
      requires old(n.left) != sentinel ==> old(Linked(n.left))
      requires old(n.right) != sentinel ==> old(Linked(n.right))
      ensures Linked(n)
    {}

    twostate predicate SameColors(node: Node)
      reads this, nodes, sentinel
    {
      && sentinel.bh == old(sentinel.bh) && sentinel.red == old(sentinel.red) && nodes <= old(nodes)
      && forall n {:trigger n in nodes} :: n in nodes && n != node ==> n.red == old(n.red) && n.bh == old(n.bh)
    }

    /** Taking out a black node leaves the place of temp one black short. */
    twostate lemma SplicedLowColors(node: Node, new temp: Node)
      requires old(Shape()) && node in old(nodes) && node != old(root) && (temp in old(nodes) || temp == sentinel)
      requires old(if node.left == sentinel then temp == node.right else node.right == sentinel && temp == node.left)
      requires SplicedLow(node, temp) && SameColors(node) && temp.parent == old(node.parent)
      requires old(Colors(null, null)) && (temp == sentinel || temp in nodes)
      ensures Colors(if old(node.red) then null else temp, temp) && !(old(node.red) && temp.red)
      ensures !old(node.red) ==> temp.parent in nodes && temp.parent.left != temp.parent.right
    {
      assert old(Linked(node)) && old(Colored(node, null, null));
      assert old(Linked(node.parent)) && old(Colored(node.parent, null, null));
      assert (temp != sentinel ==> old(Linked(temp)));
      assert temp.parent in nodes;
      var x := if old(node.red) then null else temp;
      forall n | n in nodes ensures Colored(n, x, temp) {
        SplicedLowColored(node, temp, x, n);
      }
    }

    twostate lemma SplicedLowColored(node: Node, new temp: Node, new x: Node?, new n: Node)
      requires node in old(nodes) && sentinel !in old(nodes) && node != old(root)
      requires (temp in old(nodes) || temp == sentinel)
      requires old(if node.left == sentinel then temp == node.right else node.right == sentinel && temp == node.left)
      requires SplicedLow(node, temp) && SameColors(node) && temp.parent == old(node.parent)
      requires x == (if old(node.red) then null else temp) && !sentinel.red && sentinel.bh == 0
          && (temp == sentinel || temp in nodes)
      requires n in old(nodes) && n in nodes && old(Rooted()) && old(Linked(n)) && old(Linked(node))
      requires temp != sentinel ==> old(Linked(temp))
      requires old(Colored(n, null, null)) && old(Colored(node, null, null))
      ensures Colored(n, x, temp)
    {}

    twostate lemma SplicedHighColors(node: Node, new subst: Node, new temp: Node)
      requires old(Shape()) && node in old(nodes) && subst in old(nodes) && old(Successor(node, subst))
      requires (temp in old(nodes) || temp == sentinel) && temp == old(subst.right) && SplicedHigh(node, subst, temp)
      requires SameColors(subst) && subst.red == old(node.red) && subst.bh == old(node.bh)
      requires temp.parent == (if old(subst.parent) == node then subst else old(subst.parent))
      requires old(Colors(null, null)) && (temp == sentinel || temp in nodes) && subst in nodes
      ensures Colors(if old(subst.red) then null else temp, temp) && !(old(subst.red) && temp.red)
      ensures !old(subst.red) ==> temp.parent in nodes && temp.parent.left != temp.parent.right
    {
      assert old(Linked(node)) && old(Colored(node, null, null)) && old(Linked(subst));
      assert old(Colored(subst, null, null));
      if !old(subst.red) {
        SplicedHighSides(node, subst, temp);
      }
      var x := if old(subst.red) then null else temp;
      forall n | n in nodes ensures Colored(n, x, temp) {
        SplicedHighColored(node, subst, temp, x, n);
      }
    }

    twostate lemma SplicedHighSides(node: Node, new subst: Node, new temp: Node)
      requires old(Shape()) && node in old(nodes) && subst in old(nodes) && old(Successor(node, subst))
      requires subst in nodes
      requires (temp in old(nodes) || temp == sentinel) && temp == old(subst.right) && SplicedHigh(node, subst, temp)
      requires temp.parent == (if old(subst.parent) == node then subst else old(subst.parent))
      requires old(Colors(null, null)) && !old(subst.red)
      ensures temp.parent in nodes && temp.parent.left != temp.parent.right
    {
      assert old(Linked(node)) && old(Linked(subst)) && old(Colored(subst, null, null));
      assert (temp != sentinel ==> old(Linked(temp)));
      assert old(Linked(subst.parent)) && old(Colored(subst.parent, null, null));
    }

    twostate lemma SplicedHighColored(node: Node, new subst: Node, new temp: Node, new x: Node?, new n: Node)
      requires node in old(nodes) && subst in old(nodes) && sentinel !in old(nodes) && old(Successor(node, subst))
      requires (temp in old(nodes) || temp == sentinel) && temp == old(subst.right) && SplicedHigh(node, subst, temp)
      requires SameColors(subst) && subst.red == old(node.red) && subst.bh == old(node.bh) && subst in nodes
      requires temp.parent == (if old(subst.parent) == node then subst else old(subst.parent))
      requires x == if old(subst.red) then null else temp
      requires n in old(nodes) && n in nodes && old(Rooted()) && !sentinel.red && sentinel.bh == 0
      requires (temp == sentinel || temp in nodes)
      requires old(Linked(n)) && old(Linked(node)) && old(Linked(subst))
      requires temp != sentinel ==> old(Linked(temp))
      requires old(Colored(n, null, null)) && old(Colored(node, null, null)) && old(Colored(subst, null, null))
      ensures Colored(n, x, temp)
    {
      hide SplicedHigh, Linked, Rooted, Successor, Colored;
      if n == subst {
        SplicedHighColored1(node, subst, temp, x, n);
      } else {
        SplicedHighColored2(node, subst, temp, x, n);
      }
    }

    twostate lemma SplicedHighColored1(node: Node, new subst: Node, new temp: Node, new x: Node?, new n: Node)
      requires node in old(nodes) && subst in old(nodes) && sentinel !in old(nodes) && old(Successor(node, subst))
      requires (temp in old(nodes) || temp == sentinel) && temp == old(subst.right) && SplicedHigh(node, subst, temp)
      requires SameColors(subst) && subst.red == old(node.red) && subst.bh == old(node.bh) && subst in nodes
      requires temp.parent == (if old(subst.parent) == node then subst else old(subst.parent))
      requires x == if old(subst.red) then null else temp
      requires n in old(nodes) && n in nodes && old(Rooted()) && !sentinel.red && sentinel.bh == 0
      requires (temp == sentinel || temp in nodes)
      requires old(Linked(n)) && old(Linked(node)) && old(Linked(subst))
      requires temp != sentinel ==> old(Linked(temp))
      requires old(Colored(n, null, null)) && old(Colored(node, null, null)) && old(Colored(subst, null, null))
      requires n == subst
      ensures Colored(n, x, temp)
    {}

    twostate lemma SplicedHighColored2(node: Node, new subst: Node, new temp: Node, new x: Node?, new n: Node)
      requires node in old(nodes) && subst in old(nodes) && sentinel !in old(nodes) && old(Successor(node, subst))
      requires (temp in old(nodes) || temp == sentinel) && temp == old(subst.right) && SplicedHigh(node, subst, temp)
      requires SameColors(subst) && subst.red == old(node.red) && subst.bh == old(node.bh) && subst in nodes
      requires temp.parent == (if old(subst.parent) == node then subst else old(subst.parent))
      requires x == if old(subst.red) then null else temp
      requires n in old(nodes) && n in nodes && old(Rooted()) && !sentinel.red && sentinel.bh == 0
      requires (temp == sentinel || temp in nodes)
      requires old(Linked(n)) && old(Linked(node)) && old(Linked(subst))
      requires temp != sentinel ==> old(Linked(temp))
      requires old(Colored(n, null, null)) && old(Colored(node, null, null)) && old(Colored(subst, null, null))
      requires n != subst
      ensures Colored(n, x, temp)
    {}

    // ----- Deletion: the fix-up loop -----

    /** What holds between two passes of the deletion loop: the subtree at temp, which may be
        the sentinel, is one black short unless temp is the root. */
    ghost predicate Deleting(temp: Node)
      reads this, nodes, sentinel, temp
    {
      && Shape() && Colors(temp, temp)
      && root != sentinel && (temp == sentinel || temp in nodes)
      && (temp != root ==>
            && !root.red && temp.parent in nodes && (temp.parent.left == temp || temp.parent.right == temp)
            && temp.parent.left != temp.parent.right)
    }

    lemma SiblingLeft(temp: Node)
      requires Deleting(temp) && temp != root && temp.parent.left == temp
      ensures temp.parent.right in nodes && temp.parent.right.parent == temp.parent
      ensures temp.parent.right.bh == temp.bh + 1
      ensures temp.parent.right != temp && temp.parent != temp
      ensures var w := temp.parent.right;
        w.left != null && w.right != null && w.left != w && w.right != w && temp.parent != w
      ensures temp != sentinel ==> temp.parent.right.left != temp && temp.parent.right.right != temp
    {
      assert Colored(temp.parent, temp, temp) && Linked(temp.parent);
      assert temp != sentinel ==> Linked(temp);
      assert temp != sentinel ==> Colored(temp, temp, temp);
      assert Linked(temp.parent.right);
    }

    method DeleteRedSiblingLeft(temp: Node)
      requires Deleting(temp) && temp != root && !temp.red && temp.parent.left == temp
      requires temp.parent.right != null && temp.parent.right.red
      modifies `root, nodes`left, nodes`right, nodes`parent, nodes`lo, nodes`hi, nodes`red, nodes`bh
      ensures Deleting(temp) && temp != root && !temp.red && temp.parent == old(temp.parent)
      ensures temp.parent.left == temp && temp.parent.right in nodes && !temp.parent.right.red && temp.parent.red
      ensures temp.bh == old(temp.bh)
    {
      SiblingLeft(temp);
      var p, w := temp.parent, temp.parent.right;
      DeletePaint(p, w);
      RotateLeft(p);
      assert RotatedLeft(p, w);
      assert Repainted(p, w, null);
      DeleteRedSiblingLeftColors(temp, p, w);
    }

    method DeletePaint(p: Node, w: Node)
      requires Shape() && p in nodes && w in nodes && p != w
      modifies p`red, p`bh, w`red, w`bh
      ensures Shape() && SameLinks() && Repainted(p, w, null)
      ensures !w.red && p.red && w.bh == old(w.bh) + 1 && p.bh == old(p.bh) - 1
    {
      w.red := false;
      p.red := true;
      w.bh, p.bh := w.bh + 1, p.bh - 1;
      SameShape();
    }

    twostate lemma DeleteRedSiblingLeftColors(temp: Node, new p: Node, new w: Node)
      requires p in old(nodes) && w in old(nodes) && w != sentinel && sentinel !in nodes
      requires old(Deleting(temp)) && temp != old(root) && old(temp.parent) == p && old(p.left) == temp
      requires old(p.right) == w
      requires RotatedLeft(p, w) && Repainted(p, w, null) && Shape()
      requires !w.red && p.red && w.bh == old(w.bh) + 1 && p.bh == old(p.bh) - 1 && old(w.red) && !old(temp.red)
      ensures Deleting(temp) && temp != root && temp.parent == p && p.left == temp && p.right in nodes && !p.right.red
      ensures !temp.red
    {
      assert old(Linked(p)) && old(Linked(w)) && old(Colored(p, temp, temp)) && old(Colored(w, temp, temp));
      assert temp != sentinel ==> old(Linked(temp));
      assert old(w.left) != sentinel ==> old(Colored(w.left, temp, temp));
      forall n | n in nodes ensures Colored(n, temp, temp) {
        if n != p && n != w {
          RotatedLeftColored(p, w, null, n, temp, temp);
        }
      }
    }

    /** Black sibling with black children: the sibling turns red and the shortage moves up. */
    method DeleteRecolorLeft(temp: Node)
      requires Deleting(temp) && temp != root && !temp.red && temp.parent.left == temp
      requires var w := temp.parent.right;
        w in nodes && !w.red && w.left != null && !w.left.red && w.right != null && !w.right.red
      modifies nodes`red, nodes`bh
      ensures SameLinks() && Deleting(old(temp.parent)) && old(temp.parent).red == old(temp.parent.red)
      ensures temp.bh == old(temp.bh) && old(temp.parent).bh == temp.bh + if old(temp.parent.red) then 0 else 1
    {
      SiblingLeft(temp);
      ghost var p := temp.parent;
      assert Colored(p, temp, temp);
      var w := temp.parent.right;
      w.red := true;
      w.bh, p.bh := w.bh - 1, p.bh - 1;
      DeleteRecolorLeftColors(temp, p, w);
    }

    twostate lemma DeleteRecolorColored(temp: Node, new p: Node, new w: Node, new n: Node)
      requires p in old(nodes) && w in old(nodes) && n in old(nodes) && p != w && sentinel !in nodes
      requires SameLinks() && Repainted(p, w, null) && temp.parent == p && old(temp.parent) == p && !sentinel.red
      requires w.red && p.red == old(p.red) && w.bh == old(w.bh) - 1 && p.bh == old(p.bh) - 1
      requires old(w.parent) == p && !old(w.red) && !old(temp.red) && temp != w
      requires old(w.left != null && !w.left.red && w.right != null && !w.right.red && 0 <= w.left.bh)
      requires old(p.left == temp && p.right == w) || old(p.left == w && p.right == temp)
      requires old(Linked(n)) && old(Linked(p)) && old(Linked(w))
      requires (temp != sentinel ==> temp in old(nodes) && old(Linked(temp)))
      requires old(Colored(n, temp, temp)) && old(Colored(p, temp, temp)) && old(Colored(w, temp, temp))
      ensures Colored(n, p, p)
    {}

    twostate lemma DeleteRecolorLeftColors(temp: Node, new p: Node, new w: Node)
      requires p in old(nodes) && w in old(nodes) && p != w
      requires old(Deleting(temp)) && temp != old(root) && old(temp.parent) == p && old(p.left) == temp
      requires old(p.right) == w
      requires SameLinks() && Repainted(p, w, null) && temp.parent == old(temp.parent)
      requires w.red && p.red == old(p.red) && w.bh == old(w.bh) - 1 && p.bh == old(p.bh) - 1
      requires !old(w.red) && !old(temp.red) && old(w.left != null && !w.left.red)
      requires old(w.right != null && !w.right.red)
      ensures Deleting(p)
    {
      SameShape();
      assert old(Linked(p)) && old(Linked(w)) && old(Colored(p, temp, temp)) && old(Colored(w, temp, temp));
      assert Linked(p) && (p != root ==> Linked(p.parent));
      assert old(w.left) != sentinel ==> old(Colored(w.left, temp, temp));
      forall n | n in nodes ensures Colored(n, p, p) {
        DeleteRecolorColored(temp, p, w, n);
      }
    }

    /** Black sibling whose outer child is black: turn its red inner child above it. */
    method DeleteInnerRedLeft(temp: Node)
      requires Deleting(temp) && temp != root && !temp.red && temp.parent.left == temp
      requires var w := temp.parent.right;
        w in nodes && !w.red && w.left != null && w.left.red && w.right != null && !w.right.red
      modifies `root, nodes`left, nodes`right, nodes`parent, nodes`lo, nodes`hi, nodes`red, nodes`bh
      ensures Deleting(temp) && temp != root && !temp.red && temp.parent == old(temp.parent)
      ensures temp.parent.left == temp && temp.parent.right in nodes && !temp.parent.right.red
      ensures temp.parent.right.right in nodes && temp.parent.right.right.red
      ensures temp.bh == old(temp.bh)
    {
      SiblingLeft(temp);
      var w := temp.parent.right;
      var c := w.left;
      ghost var p := temp.parent;
      assert Linked(w) && Colored(w, temp, temp);
      DeletePaint(w, c);
      RotateRight(w);
      assert RotatedRight(w, c);
      assert Repainted(w, c, null);
      DeleteInnerRedLeftColors(temp, p, w, c);
    }

    twostate lemma DeleteInnerRedLeftColors(temp: Node, new p: Node, new w: Node, new c: Node)
      requires p in old(nodes) && w in old(nodes) && c in old(nodes) && sentinel !in nodes
      requires old(Deleting(temp)) && temp != old(root) && old(temp.parent) == p && old(p.left) == temp
      requires old(p.right) == w
      requires old(w.left) == c && old(w.right != null && !w.right.red) && old(c.red) && !old(w.red)
      requires RotatedRight(w, c) && Repainted(w, c, null) && Shape()
      requires !c.red && w.red && c.bh == old(c.bh) + 1 && w.bh == old(w.bh) - 1 && !old(temp.red)
      ensures Deleting(temp) && temp != root && temp.parent == p && p.left == temp && !temp.red
      ensures p.right == c && c.right == w
    {
      assert old(Linked(p)) && old(Linked(w)) && old(Linked(c)) && old(Colored(p, temp, temp));
      assert old(Colored(w, temp, temp)) && old(Colored(c, temp, temp));
      assert temp != sentinel ==> old(Linked(temp));
      hide Indexed, Rooted;
      forall n | n in nodes ensures Colored(n, temp, temp) {
        if n != c && n != w {
          RotatedRightColored(w, c, null, n, temp, temp);
        }
      }
    }

    /** Black sibling with a red outer child: turn the parent; the outer child makes up the shortage. */
    method DeleteOuterRedLeft(temp: Node)
      requires Deleting(temp) && temp != root && !temp.red && temp.parent.left == temp
      requires var w := temp.parent.right; w in nodes && !w.red && w.right in nodes && w.right.red
      modifies `root, nodes`left, nodes`right, nodes`parent, nodes`lo, nodes`hi, nodes`red, nodes`bh
      ensures root in nodes && Deleting(root)
      ensures temp.bh == old(temp.bh) && (temp == sentinel || temp in nodes)
    {
      SiblingLeft(temp);
      var p, w, c := temp.parent, temp.parent.right, temp.parent.right.right;
      assert Linked(w) && Linked(c);
      DeleteExchange(p, w, c);
      RotateLeft(p);
      assert RotatedLeft(p, w);
      assert Repainted(p, w, c);
      DeleteOuterRedLeftColors(temp, p, w, c);
    }

    method DeleteExchange(p: Node, w: Node, c: Node)
      requires Shape() && p in nodes && w in nodes && c in nodes && p != w && c != w && p != c
      modifies p`red, p`bh, w`red, w`bh, c`red, c`bh
      ensures Shape() && SameLinks() && Repainted(p, w, c)
      ensures w.red == old(p.red) && w.bh == old(p.bh)
      ensures !p.red && p.bh == old(w.bh) && !c.red && c.bh == old(c.bh) + 1
    {
      w.red := p.red;
      p.red := false;
      c.red := false;
      p.bh, w.bh, c.bh := w.bh, p.bh, c.bh + 1;
      SameShape();
    }

    twostate lemma DeleteOuterRedLeftColors(temp: Node, new p: Node, new w: Node, new c: Node)
      requires p in old(nodes) && w in old(nodes) && c in old(nodes) && w != sentinel && sentinel !in nodes
      requires old(Deleting(temp)) && temp != old(root) && old(temp.parent) == p && old(p.left) == temp
      requires old(p.right) == w
      requires old(w.right) == c && old(c.red) && !old(w.red) && !old(temp.red) && old(c.parent) == w
      requires RotatedLeft(p, w) && Repainted(p, w, c) && Shape()
      requires w.red == old(p.red) && w.bh == old(p.bh)
      requires !p.red && p.bh == old(w.bh) && !c.red && c.bh == old(c.bh) + 1
      ensures root in nodes && Deleting(root)
    {
      assert old(Linked(p)) && old(Linked(w));
      DeleteOuterRedLeftColors3(temp, p, w, c);
      forall n | n in nodes ensures Colored(n, root, root) {
        if n != p && n != w && n != c {
          DeleteOuterRedLeftNode(temp, p, w, c, n);
        }
      }
    }

    twostate lemma DeleteOuterRedLeftNode(temp: Node, new p: Node, new w: Node, new c: Node, new n: Node)
      requires p in old(nodes) && w in old(nodes) && c in old(nodes) && w != sentinel && sentinel !in nodes
      requires old(Deleting(temp)) && temp != old(root) && old(temp.parent) == p && old(p.left) == temp
      requires old(p.right) == w
      requires old(w.right) == c && old(c.red) && !old(w.red) && !old(temp.red) && old(c.parent) == w
      requires RotatedLeft(p, w) && Repainted(p, w, c) && Shape()
      requires w.red == old(p.red) && w.bh == old(p.bh)
      requires !p.red && p.bh == old(w.bh) && !c.red && c.bh == old(c.bh) + 1
      requires n in nodes && n != p && n != w && n != c
      ensures Colored(n, root, root)
    {
      assert old(Linked(p)) && old(Linked(w)) && (temp != sentinel ==> old(Linked(temp)));
      assert old(Linked(n)) && old(Colored(n, temp, temp));
      RotatedLeftColored(p, w, c, n, temp, temp);
    }

    twostate lemma DeleteOuterRedLeftColors3(temp: Node, new p: Node, new w: Node, new c: Node)
      requires p in old(nodes) && w in old(nodes) && c in old(nodes) && w != sentinel && sentinel !in nodes
      requires old(Deleting(temp)) && temp != old(root) && old(temp.parent) == p && old(p.left) == temp
      requires old(p.right) == w
      requires old(w.right) == c && old(c.red) && !old(w.red) && !old(temp.red) && old(c.parent) == w
      requires RotatedLeft(p, w) && Repainted(p, w, c)
      requires w.red == old(p.red) && w.bh == old(p.bh)
      requires !p.red && p.bh == old(w.bh) && !c.red && c.bh == old(c.bh) + 1
      ensures Colored(p, root, root) && Colored(w, root, root) && Colored(c, root, root)
    {
      assert old(Linked(p)) && old(Linked(w)) && old(Linked(c)) && old(Colored(p, temp, temp));
      assert old(Colored(w, temp, temp)) && old(Colored(c, temp, temp));
      assert temp != sentinel ==> old(Linked(temp));
    }

    lemma SiblingRight(temp: Node)
      requires Deleting(temp) && temp != root && temp.parent.right == temp
      ensures temp.parent.left in nodes && temp.parent.left.parent == temp.parent && temp.parent.left.bh == temp.bh + 1
      ensures temp.parent.left != temp && temp.parent != temp
      ensures var w := temp.parent.left;
        w.right != null && w.left != null && w.right != w && w.left != w && temp.parent != w
      ensures temp != sentinel ==> temp.parent.left.right != temp && temp.parent.left.left != temp
    {
      assert Colored(temp.parent, temp, temp) && Linked(temp.parent);
      assert temp != sentinel ==> Linked(temp);
      assert temp != sentinel ==> Colored(temp, temp, temp);
      assert Linked(temp.parent.left);
    }

    method DeleteRedSiblingRight(temp: Node)
      requires Deleting(temp) && temp != root && !temp.red && temp.parent.right == temp
      requires temp.parent.left != null && temp.parent.left.red
      modifies `root, nodes`left, nodes`right, nodes`parent, nodes`lo, nodes`hi, nodes`red, nodes`bh
      ensures Deleting(temp) && temp != root && !temp.red && temp.parent == old(temp.parent)
      ensures temp.parent.right == temp && temp.parent.left in nodes && !temp.parent.left.red && temp.parent.red
      ensures temp.bh == old(temp.bh)
    {
      SiblingRight(temp);
      var p, w := temp.parent, temp.parent.left;
      DeletePaint(p, w);
      RotateRight(p);
      assert RotatedRight(p, w);
      assert Repainted(p, w, null);
      DeleteRedSiblingRightColors(temp, p, w);
    }

    twostate lemma DeleteRedSiblingRightColors(temp: Node, new p: Node, new w: Node)
      requires p in old(nodes) && w in old(nodes) && w != sentinel && sentinel !in nodes
      requires old(Deleting(temp)) && temp != old(root) && old(temp.parent) == p && old(p.right) == temp
      requires old(p.left) == w
      requires RotatedRight(p, w) && Repainted(p, w, null) && Shape()
      requires !w.red && p.red && w.bh == old(w.bh) + 1 && p.bh == old(p.bh) - 1 && old(w.red) && !old(temp.red)
      ensures Deleting(temp) && temp != root && temp.parent == p && p.right == temp && p.left in nodes && !p.left.red
      ensures !temp.red
    {
      assert old(Linked(p)) && old(Linked(w)) && old(Colored(p, temp, temp)) && old(Colored(w, temp, temp));
      assert temp != sentinel ==> old(Linked(temp));
      assert old(w.right) != sentinel ==> old(Colored(w.right, temp, temp));
      forall n | n in nodes ensures Colored(n, temp, temp) {
        if n != p && n != w {
          RotatedRightColored(p, w, null, n, temp, temp);
        }
      }
    }

    /** Black sibling with black children: the sibling turns red and the shortage moves up. */
    method DeleteRecolorRight(temp: Node)
      requires Deleting(temp) && temp != root && !temp.red && temp.parent.right == temp
      requires var w := temp.parent.left;
        w in nodes && !w.red && w.right != null && !w.right.red && w.left != null && !w.left.red
      modifies nodes`red, nodes`bh
      ensures SameLinks() && Deleting(old(temp.parent)) && old(temp.parent).red == old(temp.parent.red)
      ensures temp.bh == old(temp.bh) && old(temp.parent).bh == temp.bh + if old(temp.parent.red) then 0 else 1
    {
      SiblingRight(temp);
      ghost var p := temp.parent;
      assert Colored(p, temp, temp);
      var w := temp.parent.left;
      w.red := true;
      w.bh, p.bh := w.bh - 1, p.bh - 1;
      DeleteRecolorRightColors(temp, p, w);
    }

    twostate lemma DeleteRecolorRightColors(temp: Node, new p: Node, new w: Node)
      requires p in old(nodes) && w in old(nodes) && p != w
      requires old(Deleting(temp)) && temp != old(root) && old(temp.parent) == p && old(p.right) == temp
      requires old(p.left) == w
      requires SameLinks() && Repainted(p, w, null) && temp.parent == old(temp.parent)
      requires w.red && p.red == old(p.red) && w.bh == old(w.bh) - 1 && p.bh == old(p.bh) - 1
      requires !old(w.red) && !old(temp.red) && old(w.right != null && !w.right.red)
      requires old(w.left != null && !w.left.red)
      ensures Deleting(p)
    {
      SameShape();
      assert old(Linked(p)) && old(Linked(w)) && old(Colored(p, temp, temp)) && old(Colored(w, temp, temp));
      assert Linked(p) && (p != root ==> Linked(p.parent));
      assert old(w.left) != sentinel ==> old(Colored(w.left, temp, temp));
      forall n | n in nodes ensures Colored(n, p, p) {
        DeleteRecolorColored(temp, p, w, n);
      }
    }

    /** Black sibling whose outer child is black: turn its red inner child above it. */
    method DeleteInnerRedRight(temp: Node)
      requires Deleting(temp) && temp != root && !temp.red && temp.parent.right == temp
      requires var w := temp.parent.left;
        w in nodes && !w.red && w.right != null && w.right.red && w.left != null && !w.left.red
      modifies `root, nodes`left, nodes`right, nodes`parent, nodes`lo, nodes`hi, nodes`red, nodes`bh
      ensures Deleting(temp) && temp != root && !temp.red && temp.parent == old(temp.parent)
      ensures temp.parent.right == temp && temp.parent.left in nodes && !temp.parent.left.red
      ensures temp.parent.left.left in nodes && temp.parent.left.left.red
      ensures temp.bh == old(temp.bh)
    {
      SiblingRight(temp);
      var w := temp.parent.left;
      var c := w.right;
      ghost var p := temp.parent;
      assert Linked(w) && Colored(w, temp, temp);
      DeletePaint(w, c);
      RotateLeft(w);
      assert RotatedLeft(w, c);
      assert Repainted(w, c, null);
      DeleteInnerRedRightColors(temp, p, w, c);
    }

    twostate lemma DeleteInnerRedRightColors(temp: Node, new p: Node, new w: Node, new c: Node)
      requires p in old(nodes) && w in old(nodes) && c in old(nodes) && sentinel !in nodes
      requires old(Deleting(temp)) && temp != old(root) && old(temp.parent) == p && old(p.right) == temp
      requires old(p.left) == w
      requires old(w.right) == c && old(w.left != null && !w.left.red) && old(c.red) && !old(w.red)
      requires RotatedLeft(w, c) && Repainted(w, c, null) && Shape()
      requires !c.red && w.red && c.bh == old(c.bh) + 1 && w.bh == old(w.bh) - 1 && !old(temp.red)
      ensures Deleting(temp) && temp != root && temp.parent == p && p.right == temp && !temp.red
      ensures p.left == c && c.left == w
    {
      assert old(Linked(p)) && old(Linked(w)) && old(Linked(c)) && old(Colored(p, temp, temp));
      assert old(Colored(w, temp, temp)) && old(Colored(c, temp, temp));
      assert temp != sentinel ==> old(Linked(temp));
      hide Indexed, Rooted;
      forall n | n in nodes ensures Colored(n, temp, temp) {
        if n != c && n != w {
          RotatedLeftColored(w, c, null, n, temp, temp);
        }
      }
    }

    /** Black sibling with a red outer child: turn the parent; the outer child makes up the shortage. */
    method DeleteOuterRedRight(temp: Node)
      requires Deleting(temp) && temp != root && !temp.red && temp.parent.right == temp
      requires var w := temp.parent.left; w in nodes && !w.red && w.left in nodes && w.left.red
      modifies `root, nodes`left, nodes`right, nodes`parent, nodes`lo, nodes`hi, nodes`red, nodes`bh
      ensures root in nodes && Deleting(root)
      ensures temp.bh == old(temp.bh) && (temp == sentinel || temp in nodes)
    {
      SiblingRight(temp);
      var p, w, c := temp.parent, temp.parent.left, temp.parent.left.left;
      assert Linked(w) && Linked(c);
      DeleteExchange(p, w, c);
      RotateRight(p);
      assert RotatedRight(p, w);
      assert Repainted(p, w, c);
      DeleteOuterRedRightColors(temp, p, w, c);
    }

    twostate lemma DeleteOuterRedRightColors(temp: Node, new p: Node, new w: Node, new c: Node)
      requires p in old(nodes) && w in old(nodes) && c in old(nodes) && w != sentinel && sentinel !in nodes
      requires old(Deleting(temp)) && temp != old(root) && old(temp.parent) == p && old(p.right) == temp
      requires old(p.left) == w
      requires old(w.left) == c && old(c.red) && !old(w.red) && !old(temp.red) && old(c.parent) == w
      requires RotatedRight(p, w) && Repainted(p, w, c) && Shape()
      requires w.red == old(p.red) && w.bh == old(p.bh)
      requires !p.red && p.bh == old(w.bh) && !c.red && c.bh == old(c.bh) + 1
      ensures root in nodes && Deleting(root)
    {
      assert old(Linked(p)) && old(Linked(w));
      DeleteOuterRedRightColors3(temp, p, w, c);
      forall n | n in nodes ensures Colored(n, root, root) {
        if n != p && n != w && n != c {
          DeleteOuterRedRightNode(temp, p, w, c, n);
        }
      }
    }

    twostate lemma DeleteOuterRedRightNode(temp: Node, new p: Node, new w: Node, new c: Node, new n: Node)
      requires p in old(nodes) && w in old(nodes) && c in old(nodes) && w != sentinel && sentinel !in nodes
      requires old(Deleting(temp)) && temp != old(root) && old(temp.parent) == p && old(p.right) == temp
      requires old(p.left) == w
      requires old(w.left) == c && old(c.red) && !old(w.red) && !old(temp.red) && old(c.parent) == w
      requires RotatedRight(p, w) && Repainted(p, w, c) && Shape()
      requires w.red == old(p.red) && w.bh == old(p.bh)
      requires !p.red && p.bh == old(w.bh) && !c.red && c.bh == old(c.bh) + 1
      requires n in nodes && n != p && n != w && n != c
      ensures Colored(n, root, root)
    {
      assert old(Linked(p)) && old(Linked(w)) && (temp != sentinel ==> old(Linked(temp)));
      assert old(Linked(n)) && old(Colored(n, temp, temp));
      RotatedRightColored(p, w, c, n, temp, temp);
    }

    twostate lemma DeleteOuterRedRightColors3(temp: Node, new p: Node, new w: Node, new c: Node)
      requires p in old(nodes) && w in old(nodes) && c in old(nodes) && w != sentinel && sentinel !in nodes
      requires old(Deleting(temp)) && temp != old(root) && old(temp.parent) == p && old(p.right) == temp
      requires old(p.left) == w
      requires old(w.left) == c && old(c.red) && !old(w.red) && !old(temp.red) && old(c.parent) == w
      requires RotatedRight(p, w) && Repainted(p, w, c)
      requires w.red == old(p.red) && w.bh == old(p.bh)
      requires !p.red && p.bh == old(w.bh) && !c.red && c.bh == old(c.bh) + 1
      ensures Colored(p, root, root) && Colored(w, root, root) && Colored(c, root, root)
    {
      assert old(Linked(p)) && old(Linked(w)) && old(Linked(c)) && old(Colored(p, temp, temp));
      assert old(Colored(w, temp, temp)) && old(Colored(c, temp, temp));
      assert temp != sentinel ==> old(Linked(temp));
    }

    /** What is left to do: nothing at a red node or the root, else at most two passes for every
        level above temp; a pass that meets a red sibling leaves a red parent. */
    ghost function Short(temp: Node): int
      requires temp != root ==> temp.parent in nodes
      reads this, nodes, temp
    {
      if temp == root || temp.red then 0 else 1 + |order| - (if temp == sentinel then 0 else temp.hi - temp.lo)
    }

    /** One pass of the deletion loop when temp is a left child. */
    method DeletePassLeft(temp: Node) returns (next: Node)
      requires Deleting(temp) && temp != root && !temp.red && temp == temp.parent.left
      modifies `root, nodes`left, nodes`right, nodes`parent, nodes`lo, nodes`hi, nodes`red, nodes`bh
      ensures Deleting(next) && 0 <= Short(next) < old(Short(temp))
      ensures temp.bh == old(temp.bh) && (temp == sentinel || temp in nodes)
      ensures Short(next) > 0 ==> next.bh == temp.bh + 1
    {
      SiblingLeft(temp);
      assert Linked(temp.parent) && (temp != sentinel ==> Linked(temp));
      var w := temp.parent.right;
      if w.red {
        DeleteRedSiblingLeft(temp);
        w := temp.parent.right;
        SiblingLeft(temp);
      }
      if !w.left.red && !w.right.red {
        DeleteRecolorLeft(temp);
        next := temp.parent;
        assert Linked(next);
      } else {
        assert Colored(w, temp, temp);
        if !w.right.red {
          DeleteInnerRedLeft(temp);
          w := temp.parent.right;
        }
        DeleteOuterRedLeft(temp);
        next := root;
      }
    }

    /** One pass of the deletion loop when temp is a right child. */
    method DeletePassRight(temp: Node) returns (next: Node)
      requires Deleting(temp) && temp != root && !temp.red && temp == temp.parent.right
      modifies `root, nodes`left, nodes`right, nodes`parent, nodes`lo, nodes`hi, nodes`red, nodes`bh
      ensures Deleting(next) && 0 <= Short(next) < old(Short(temp))
      ensures temp.bh == old(temp.bh) && (temp == sentinel || temp in nodes)
      ensures Short(next) > 0 ==> next.bh == temp.bh + 1
    {
      SiblingRight(temp);
      assert Linked(temp.parent) && (temp != sentinel ==> Linked(temp));
      var w := temp.parent.left;
      if w.red {
        DeleteRedSiblingRight(temp);
        w := temp.parent.left;
        SiblingRight(temp);
      }
      if !w.right.red && !w.left.red {
        DeleteRecolorRight(temp);
        next := temp.parent;
        assert Linked(next);
      } else {
        assert Colored(w, temp, temp);
        if !w.left.red {
          DeleteInnerRedRight(temp);
          w := temp.parent.left;
        }
        DeleteOuterRedRight(temp);
        next := root;
      }
    }

    method DeleteFixup(temp0: Node) returns (ghost passes: nat)
      requires Deleting(temp0)
      modifies `root, nodes`left, nodes`right, nodes`parent, nodes`lo, nodes`hi, nodes`red, nodes`bh, sentinel`red
      ensures Valid() && passes <= root.bh + 1
    {
      var temp := temp0;
      passes := 0;
      ghost var last := temp;
      TempHeight(temp);
      while temp != root && !temp.red
        invariant Deleting(temp) && (last == sentinel || last in nodes)
        invariant passes <= last.bh + 1 && (Short(temp) > 0 ==> passes <= temp.bh)
        decreases Short(temp)
      {
        last := temp;
        if temp == temp.parent.left {
          temp := DeletePassLeft(temp);
        } else {
          temp := DeletePassRight(temp);
        }
        passes := passes + 1;
      }
      DeleteBlacken(temp);
      if last != sentinel {
        BelowRoot(last);
      } else {
        RootHeight();
      }
    }

    lemma TempHeight(temp: Node)
      requires Deleting(temp)
      ensures temp.bh >= 0
    {
      assert temp != sentinel ==> Colored(temp, temp, temp);
    }

    lemma RootHeight()
      requires Valid()
      ensures root.bh >= 0 && sentinel.bh == 0
    {
      assert root != sentinel ==> Colored(root, null, null);
    }

    method DeleteBlacken(temp: Node)
      requires Deleting(temp) && (temp == root || temp.red)
      modifies temp`red, nodes`bh
      ensures Valid() && SameLinks() && forall n :: n in nodes ==> n.bh >= old(n.bh)
    {
      assert Linked(temp);
      if temp.red {
        temp.bh := temp.bh + 1;
      }
      temp.red := false;
      SameShape();
      forall n | n in nodes ensures Colored(n, null, null) {
        assert old(Colored(n, temp, temp)) && old(Linked(n));
        BlackenedColored(temp, n);
      }
    }

    twostate lemma BlackenedColored(temp: Node, new n: Node)
      requires SameLinks() && n in nodes && sentinel !in nodes && !temp.red && (temp == old(root) || old(temp.red))
      requires temp.bh == old(temp.bh) + (if old(temp.red) then 1 else 0) && (temp == sentinel || temp in nodes)
      requires sentinel.bh == old(sentinel.bh) && !sentinel.red && old(!sentinel.red)
      requires forall m {:trigger m in nodes} :: m in nodes && m != temp ==> m.red == old(m.red) && m.bh == old(m.bh)
      requires old(Colored(n, temp, temp)) && old(Linked(n)) && (temp != sentinel ==> old(Linked(temp)))
      requires old(Rooted())
      ensures Colored(n, null, null)
    {}

    // ----- Deletion -----

    ghost method Forget(node: Node, r: int)
      requires node in nodes && 0 <= node.pos < |order|
      modifies `nodes, `order, nodes`pos, nodes`lo, nodes`hi
      ensures Removed(node)
      ensures forall n {:trigger n in nodes} :: n in nodes ==>
        n.pos == Dropped(old(n.pos), r) && n.lo == Dropped(old(n.lo), r) && n.hi == Dropped(old(n.hi), r)
      ensures node.pos == old(node.pos) && node.lo == old(node.lo) && node.hi == old(node.hi)
    {
      order := order[..node.pos] + order[node.pos + 1..];
      nodes := nodes - {node};
      CloseGap(r);
    }

    method SpliceLow(node: Node, temp: Node)
      requires Shape() && node in nodes && node != root && (temp in nodes || temp == sentinel)
      requires if node.left == sentinel then temp == node.right else node.right == sentinel && temp == node.left
      modifies `nodes, `order, nodes`left, nodes`right, nodes`parent, nodes`pos, nodes`lo, nodes`hi, sentinel`parent
      ensures SplicedLow(node, temp) && temp.parent == old(node.parent)
    {
      assert Linked(node) && Linked(node.parent) && (temp != sentinel ==> Linked(temp));
      Detach(node, node, temp);
      Forget(node, node.pos);
    }

    lemma HighNeighbours(node: Node, subst: Node, temp: Node)
      requires Shape() && Successor(node, subst) && temp == subst.right
      ensures subst.parent in nodes && node.left in nodes && node.right in nodes && (temp in nodes || temp == sentinel)
      ensures Linked(node) && Linked(subst) && Linked(subst.parent) && Linked(node.left) && Linked(node.right)
      ensures node != root ==> node.parent in nodes && Linked(node.parent)
      ensures temp != sentinel ==> Linked(temp)
      ensures subst.pos == node.pos + 1 && subst != node && node in nodes && subst in nodes
    {
      assert Linked(node) && Linked(subst);
    }

    method SpliceHigh(node: Node, subst: Node, temp: Node)
      requires Shape() && Successor(node, subst) && temp == subst.right
      modifies `root, `nodes, `order, nodes`left, nodes`right, nodes`parent, nodes`pos, nodes`lo, nodes`hi
      modifies sentinel`parent, subst`red, subst`bh
      ensures SplicedHigh(node, subst, temp) && subst.red == old(node.red) && subst.bh == old(node.bh)
      ensures temp.parent == (if old(subst.parent) == node then subst else old(subst.parent))
    {
      HighNeighbours(node, subst, temp);
      hide Linked, Successor, Rooted, Indexed, Removed, Dropped, Shape, HighLayout, HighLinks;
      SpliceHighLinks(node, subst, temp);
      SpliceHighLayout(node, subst);
    }

    ghost method SpliceHighLayout(node: Node, subst: Node)
      requires Indexed() && node in nodes && subst in nodes && node != subst && subst.pos == node.pos + 1
      modifies `nodes, `order, nodes`pos, nodes`lo, nodes`hi
      ensures Removed(node) && nodes == old(nodes) - {node} && HighLayout(node, subst)
    {
      assert forall n {:trigger n in nodes} :: n in nodes && n.pos == subst.pos ==> n == subst;
      Forget(node, subst.pos);
      subst.pos, subst.lo, subst.hi := node.pos, node.lo, node.hi - 1;
      assert forall n {:trigger n in nodes} :: n in nodes ==> n in old(nodes);
    }

    method SpliceHighLinks(node: Node, subst: Node, temp: Node)
      requires Indexed() && Rooted() && Successor(node, subst) && temp == subst.right
      requires (temp in nodes || temp == sentinel)
      requires Linked(node) && Linked(subst) && Linked(subst.parent) && Linked(node.left) && Linked(node.right)
      requires (node != root ==> Linked(node.parent)) && (temp != sentinel ==> Linked(temp))
      modifies `root, nodes`left, nodes`right, nodes`parent, sentinel`parent, subst`red, subst`bh
      ensures subst.red == old(node.red) && subst.bh == old(node.bh)
      ensures temp.parent == (if old(subst.parent) == node then subst else old(subst.parent))
      ensures nodes == old(nodes) && HighLinks(node, subst, temp, nodes - {node})
    {
      Detach(node, subst, temp);
      TakePlace(node, subst);
      assert temp != sentinel ==> temp in nodes;
    }

    /** Hangs temp in the place of subst. */
    method Detach(node: Node, subst: Node, temp: Node)
      requires subst.parent != null && subst.parent != temp && subst != temp
      requires (subst.parent.left == subst || subst.parent.right == subst)
      modifies subst.parent`left, subst.parent`right, temp`parent
      ensures subst.parent.left == (if old(subst.parent.left) == subst then temp else old(subst.parent.left))
      ensures subst.parent.right == (if old(subst.parent.left) == subst then old(subst.parent.right) else temp)
      ensures temp.parent == (if subst.parent == node then subst else subst.parent)
    {
      if subst == subst.parent.left {
        subst.parent.left := temp;
      } else {
        subst.parent.right := temp;
      }
      if subst.parent == node {
        temp.parent := subst;
      } else {
        temp.parent := subst.parent;
      }
    }

    /** Gives subst the links and the colour of node. */
    method TakePlace(node: Node, subst: Node)
      requires node in nodes && subst in nodes && node != subst && (node != root ==> node.parent != subst)
      requires sentinel !in nodes
      requires node.left in nodes && node.left != subst && (node.right == sentinel || node.right in nodes)
      requires node.right != subst
      requires node.left != node && node.right != node && node.left != node.right
      requires node != root ==> node.parent in nodes && (node.parent.left == node || node.parent.right == node)
      modifies `root, nodes`left, nodes`right, nodes`parent, subst`red, subst`bh
      ensures root == (if node == old(root) then subst else old(root))
      ensures subst.red == old(node.red) && subst.bh == old(node.bh)
      ensures forall n {:trigger n in nodes} :: n in nodes ==>
        && n.left == (if n == subst then old(node.left)
                      else if node != old(root) && n == old(node.parent) && old(n.left) == node then subst
                          else old(n.left))
        && n.right == (if n == subst then old(node.right)
                       else if node != old(root) && n == old(node.parent) && old(n.left) != node then subst
                           else old(n.right))
        && n.parent == (if n == subst then old(node.parent)
                        else if n == old(node.left) || n == old(node.right) then subst else old(n.parent))
    {
      subst.left := node.left;
      subst.right := node.right;
      subst.parent := node.parent;
      subst.red := node.red;
      subst.bh := node.bh;
      Supplant(node, subst);
      if subst.left != sentinel {
        subst.left.parent := subst;
      }
      if subst.right != sentinel {
        subst.right.parent := subst;
      }
    }

    /** Takes out a node with at most one child. */
    method DeleteLow(node: Node, temp: Node)
      requires Valid() && node in nodes && node != root && (temp in nodes || temp == sentinel)
      requires if node.left == sentinel then temp == node.right else node.right == sentinel && temp == node.left
      modifies `nodes, `order, nodes`left, nodes`right, nodes`parent, nodes`pos, nodes`lo, nodes`hi, sentinel`parent
      ensures Removed(node) && node !in nodes && temp != node
      ensures if old(node.red) then Valid() else Deleting(temp)
    {
      assert Linked(node) && (temp != sentinel ==> Linked(temp)) && Linked(root);
      SpliceLow(node, temp);
      SplicedLowShape(node, temp);
      SplicedLowColors(node, temp);
      Spliced(temp, node.red);
    }

    lemma Spliced(temp: Node, red: bool)
      requires Shape() && (temp == sentinel || temp in nodes) && !root.red && root != sentinel
      requires Colors(if red then null else temp, temp) && !(red && temp.red)
      requires !red ==> temp.parent in nodes && temp.parent.left != temp.parent.right
      requires !red && temp != root ==> temp.parent.left == temp || temp.parent.right == temp
      ensures if red then Valid() else Deleting(temp)
    {
      if red {
        forall n | n in nodes ensures Colored(n, null, null) {
          assert Colored(n, null, temp);
        }
      }
    }

    /** Takes out a node with two children, by way of the first node of its right subtree. */
    method DeleteHigh(node: Node, subst: Node, temp: Node)
      requires Valid() && Successor(node, subst) && temp == subst.right
      modifies `root, `nodes, `order, nodes`left, nodes`right, nodes`parent, nodes`pos, nodes`lo, nodes`hi
      modifies sentinel`parent, subst`red, subst`bh
      ensures Removed(node) && node !in nodes && temp != node
      ensures if old(subst.red) then Valid() else Deleting(temp)
    {
      assert Linked(node) && Linked(subst) && (temp != sentinel ==> Linked(temp)) && Linked(root);
      SpliceHigh(node, subst, temp);
      SplicedHighShape(node, subst, temp);
      SplicedHighColors(node, subst, temp);
      Spliced(temp, old(subst.red));
    }

    /** cc_rbtree_delete */
    method Delete(node: Node) returns (ghost steps: nat, ghost passes: nat)
      requires Valid() && node in nodes
      modifies `root, `order, `nodes, nodes`left, nodes`right, nodes`parent, nodes`red
      modifies nodes`pos, nodes`lo, nodes`hi, nodes`bh, sentinel`parent, sentinel`red, node`key
      ensures Valid() && Removed(node)
      ensures steps <= 2 * old(root.bh) && passes <= root.bh + 1
      ensures node.left == null && node.right == null && node.parent == null && node.key == 0
    {
      var subst, temp;
      subst, temp, steps := Replacement(node);
      if subst == root {
        DeleteRoot(node, temp);
        Clear(node);
        passes := 0;
        RootHeight();
      } else {
        passes := DeleteBelow(node, subst, temp);
      }
    }

    /** Takes out subst, which is not the root, and puts it in the place of node. */
    method DeleteBelow(node: Node, subst: Node, temp: Node) returns (ghost passes: nat)
      requires Valid() && node in nodes && subst != root && (temp in nodes || temp == sentinel)
      requires if subst == node
               then (if node.left == sentinel then temp == node.right else node.right == sentinel && temp == node.left)
               else Successor(node, subst) && temp == subst.right
      modifies `root, `order, `nodes, nodes`left, nodes`right, nodes`parent, nodes`red
      modifies nodes`pos, nodes`lo, nodes`hi, nodes`bh, sentinel`parent, sentinel`red, node`key
      ensures Valid() && Removed(node) && passes <= root.bh + 1
      ensures node.left == null && node.right == null && node.parent == null && node.key == 0
    {
      var red := subst.red;
      if subst == node {
        DeleteLow(node, temp);
      } else {
        DeleteHigh(node, subst, temp);
      }
      Clear(node);
      passes := 0;
      if red {
        RootHeight();
      } else {
        passes := DeleteFixup(temp);
      }
    }

    /** The node to unlink, and its only child, if any. */
    method Replacement(node: Node) returns (subst: Node, temp: Node, ghost steps: nat)
      requires Valid() && node in nodes
      ensures steps <= 2 * root.bh
      ensures temp in nodes || temp == sentinel
      ensures if subst == node
              then (if node.left == sentinel then temp == node.right else node.right == sentinel && temp == node.left)
              else Successor(node, subst) && temp == subst.right
    {
      steps := 0;
      RootLevel();
      BelowRoot(node);
      ChildBelow(node);
      assert Linked(node);
      if node.left == sentinel {
        temp := node.right;
        subst := node;
      } else if node.right == sentinel {
        temp := node.left;
        subst := node;
      } else {
        assert Linked(node.right);
        subst, steps := Min(node.right);
        assert Linked(subst) && (subst != node.right ==> Linked(subst.parent));
        temp := subst.right;
      }
    }

    method Clear(node: Node)
      modifies node`left, node`right, node`parent, node`key
      ensures node.left == null && node.right == null && node.parent == null && node.key == 0
    {
      node.left := null;
      node.right := null;
      node.parent := null;
      node.key := 0;
    }

    /** The root has at most one child, which becomes the root and turns black. */
    method DeleteRoot(node: Node, temp: Node)
      requires Valid() && node in nodes && node == root && (temp in nodes || temp == sentinel)
      requires if node.left == sentinel then temp == node.right else node.right == sentinel && temp == node.left
      modifies `root, `order, `nodes, nodes`red, nodes`pos, nodes`lo, nodes`hi, nodes`bh, sentinel`red
      ensures Valid() && Removed(node) && node !in nodes
    {
      DeleteRootLinks(node, temp);
      label Linked:
      ghost var red := temp.red;
      temp.red := false;
      if red {
        temp.bh := temp.bh + 1;
      }
      SameShape@Linked();
      forall n | n in nodes ensures Colored(n, null, null) {
        assert old@Linked(Colored(n, null, null)) && old@Linked(Linked(n));
      }
    }

    method DeleteRootLinks(node: Node, temp: Node)
      requires Valid() && node in nodes && node == root && (temp in nodes || temp == sentinel)
      requires if node.left == sentinel then temp == node.right else node.right == sentinel && temp == node.left
      modifies `root, `order, `nodes, nodes`pos, nodes`lo, nodes`hi
      ensures Shape() && Colors(null, null) && Removed(node) && node !in nodes && root == temp
    {
      assert Linked(node) && (temp != sentinel ==> Linked(temp));
      root := temp;
      Forget(node, node.pos);
      SplicedLowShape(node, temp);
      forall n | n in nodes ensures Colored(n, null, null) {
        assert old(Colored(n, null, null)) && old(Linked(n));
      }
    }

    // ----- In-order walk -----

    /** cc_rbtree_next */
    method Next(node0: Node) returns (next: Node?, ghost steps: nat)
      requires Shape() && node0 in nodes
      ensures Colors(null, null) ==> steps <= Level(root)
      ensures next == if node0.pos + 1 < |order| then order[node0.pos + 1] else null
    {
      steps := 0;
      assert Linked(node0);
      if Colors(null, null) {
        BelowRoot(node0);
        ChildBelow(node0);
      }
      if node0.right != sentinel {
        assert Linked(node0.right);
        next, steps := Min(node0.right);
        return;
      }
      next, steps := NextAbove(node0);
    }

    /** The walk up from a node without right child. */
    method NextAbove(node0: Node) returns (next: Node?, ghost steps: nat)
      requires Shape() && node0 in nodes && node0.right == sentinel
      ensures Colors(null, null) ==> steps <= Level(root)
      ensures next == if node0.pos + 1 < |order| then order[node0.pos + 1] else null
    {
      hide Colors, Level;
      steps := 0;
      assert Linked(node0);
      LevelBounds(node0);
      var node := node0;
      while true
        invariant node in nodes && node.hi == node0.pos + 1
        invariant Colors(null, null) ==> steps <= Level(node) <= Level(root)
        decreases |order| - (node.hi - node.lo)
      {
        assert Linked(node) && (node != root ==> Linked(node.parent));
        var parent := node.parent;
        if node == root {
          return null, steps;
        }
        if node == parent.left {
          assert order[parent.pos] == parent;
          return parent, steps;
        }
        StepUp(node);
        node := parent;
        steps := steps + 1;
      }
    }

    lemma LevelBounds(n: Node)
      requires Shape() && n in nodes
      ensures Colors(null, null) ==> 0 <= Level(n) <= Level(root)
    {
      if Colors(null, null) {
        BelowRoot(n);
        ChildBelow(n);
      }
    }

    lemma StepUp(n: Node)
      requires Shape() && n in nodes && n != root
      ensures Colors(null, null) ==> n.parent in nodes && Level(n) < Level(n.parent) <= Level(root)
    {
      assert Linked(n);
      if Colors(null, null) {
        ChildBelow(n.parent);
        BelowRoot(n.parent);
      }
    }

    /** From the minimum, one step of Next after another meets every node once, in order. */
    method Visit() returns (visited: seq<Node>)
      requires Shape()
      ensures visited == order
    {
      visited := [];
      if root == sentinel {
        return;
      }
      assert Linked(root);
      var first, _ := Min(root);
      var node: Node? := first;
      while node != null
        invariant |visited| <= |order| && visited == order[..|visited|]
        invariant node == if |visited| < |order| then order[|visited|] else null
        decreases |order| - |visited|
      {
        assert node in nodes && node.pos == |visited|;
        visited := visited + [node];
        var next, _ := Next(node);
        node := next;
      }
    }

    // ----- Key order -----

    ghost predicate Sorted()
      reads this, nodes
    {
      Indexed() && forall i, j :: 0 <= i < j < |order| ==> order[i].key <= order[j].key
    }

    /** Every live key differs from key by less than 2^31, so that the timer order is the key order. */
    ghost predicate Near(key: Key)
      reads this, nodes
    {
      Indexed() && forall i {:trigger order[i]} :: 0 <= i < |order| ==> -0x8000_0000 < order[i].key - key < 0x8000_0000
    }

    /** The number of leading keys that are not above the given one. */
    ghost function Rank(key: Key): (k: int)
      requires Sorted()
      reads this, nodes
      ensures 0 <= k <= |order|
      ensures forall i {:trigger order[i]} :: 0 <= i < |order| ==> (i < k <==> order[i].key <= key)
    {
      RankFrom(key, 0)
    }

    ghost function RankFrom(key: Key, from: int): (k: int)
      requires Sorted() && 0 <= from <= |order|
      requires forall i {:trigger order[i]} :: 0 <= i < from ==> order[i].key <= key
      reads this, nodes
      ensures 0 <= k <= |order|
      ensures forall i {:trigger order[i]} :: 0 <= i < |order| ==> (i < k <==> order[i].key <= key)
      decreases |order| - from
    {
      if from < |order| && order[from].key <= key then RankFrom(key, from + 1) else from
    }

    /** Insertion puts a node after the last one whose key is not greater: equal keys keep their order of arrival. */
    lemma SplitsAtRank(key: Key)
      requires Sorted() && (timerWalk ==> Near(key))
      ensures SplitsAt(key, Rank(key))
    {
      forall i | 0 <= i < |order| ensures i < Rank(key) <==> !Less(key, order[i].key) {
        if timerWalk {
          TimerLessIsLess(key, order[i].key);
        }
      }
    }
  }
}
