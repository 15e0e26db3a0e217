/** What the local invariant of module RbTree means for whole trees: the layout is the in-order
    walk of the links, every way down passes equally many black nodes, and the height is
    logarithmic. */
module RbTheory {
  import opened RbTree

  /** The nodes below n, by recursion over the links. */
  ghost function InOrder(t: Tree, n: Node): seq<Node>
    requires t.Shape() && (n == t.sentinel || n in t.nodes)
    reads t, t.nodes, t.sentinel, n
    decreases if n == t.sentinel then 0 else n.hi - n.lo
  {
    if n == t.sentinel then []
    else
      assert t.Linked(n);
      assert n.left != t.sentinel ==> t.Linked(n.left);
      assert n.right != t.sentinel ==> t.Linked(n.right);
      InOrder(t, n.left) + [n] + InOrder(t, n.right)
  }

  lemma {:induction false} InOrderRange(t: Tree, n: Node)
    requires t.Shape() && n in t.nodes
    ensures t.Linked(n) && InOrder(t, n) == t.order[n.lo..n.hi]
    decreases n.hi - n.lo
  {
    assert t.Linked(n);
    assert n.left != t.sentinel ==> t.Linked(n.left);
    assert n.right != t.sentinel ==> t.Linked(n.right);
    if n.left != t.sentinel {
      InOrderRange(t, n.left);
    }
    if n.right != t.sentinel {
      InOrderRange(t, n.right);
    }
    assert t.order[n.pos] == n;
    Join(t.order, n.lo, n.pos, n.hi);
  }

  lemma Join<T>(s: seq<T>, lo: int, pos: int, hi: int)
    requires 0 <= lo <= pos < hi <= |s|
    ensures s[lo..pos] + [s[pos]] + s[pos + 1..hi] == s[lo..hi]
  {}

  /** The ghost sequence of a tree is the in-order walk of its links. */
  lemma OrderIsInOrder(t: Tree)
    requires t.Shape()
    ensures InOrder(t, t.root) == t.order
  {
    if t.root != t.sentinel {
      InOrderRange(t, t.root);
    }
  }

  /** Going left at each false and right at each true leads from n to a missing child. */
  ghost predicate WayDown(t: Tree, n: Node, way: seq<bool>)
    requires t.Shape() && (n == t.sentinel || n in t.nodes)
    reads t, t.nodes, t.sentinel, n
    decreases |way|
  {
    if way == [] then n == t.sentinel
    else n != t.sentinel && assert t.Linked(n); WayDown(t, if way[0] then n.right else n.left, way[1..])
  }

  ghost function BlacksOn(t: Tree, n: Node, way: seq<bool>): nat
    requires t.Shape() && (n == t.sentinel || n in t.nodes) && WayDown(t, n, way)
    reads t, t.nodes, t.sentinel, n
    decreases |way|
  {
    if way == [] then 0
    else
      assert t.Linked(n);
      (if n.red then 0 else 1) + BlacksOn(t, if way[0] then n.right else n.left, way[1..])
  }

  lemma {:induction false} BlacksAreHeight(t: Tree, n: Node, way: seq<bool>)
    requires t.Valid() && (n == t.sentinel || n in t.nodes) && WayDown(t, n, way)
    ensures BlacksOn(t, n, way) == n.bh
    ensures |way| <= 2 * n.bh + (if n.red then 1 else 0)
    decreases |way|
  {
    if way != [] {
      assert t.Linked(n) && t.Colored(n, null, null);
      BlacksAreHeight(t, if way[0] then n.right else n.left, way[1..]);
    }
  }

  /** Equal black heights: all ways from the root to a missing child pass equally many black nodes. */
  lemma EqualBlackHeights(t: Tree, way1: seq<bool>, way2: seq<bool>)
    requires t.Valid() && WayDown(t, t.root, way1) && WayDown(t, t.root, way2)
    ensures BlacksOn(t, t.root, way1) == BlacksOn(t, t.root, way2)
  {
    BlacksAreHeight(t, t.root, way1);
    BlacksAreHeight(t, t.root, way2);
  }

  function Pow2(n: nat): (p: nat)
    ensures p > 0
  {
    if n == 0 then 1 else 2 * Pow2(n - 1)
  }

  lemma {:induction false} Pow2Sum(a: nat, b: nat)
    ensures Pow2(a + b) == Pow2(a) * Pow2(b)
  {
    if a > 0 {
      Pow2Sum(a - 1, b);
      assert Pow2(a) * Pow2(b) == 2 * (Pow2(a - 1) * Pow2(b));
    }
  }

  lemma {:induction false} Pow2Monotone(a: nat, b: nat)
    requires a <= b
    ensures Pow2(a) <= Pow2(b)
  {
    if a < b {
      Pow2Monotone(a, b - 1);
    }
  }

  lemma {:induction false} SizeFromBlackHeight(t: Tree, n: Node)
    requires t.Valid() && n in t.nodes
    ensures n.bh >= 0 && Pow2(n.bh) <= n.hi - n.lo + 1
    decreases n.hi - n.lo
  {
    assert t.Linked(n) && t.Colored(n, null, null);
    assert n.left != t.sentinel ==> t.Linked(n.left);
    assert n.right != t.sentinel ==> t.Linked(n.right);
    if n.left != t.sentinel {
      SizeFromBlackHeight(t, n.left);
    }
    if n.right != t.sentinel {
      SizeFromBlackHeight(t, n.right);
    }
  }

  /** The height h of a tree with n nodes satisfies 2^h <= (n + 1)^2, so h <= 2 * log2(n + 1). */
  lemma HeightBound(t: Tree, way: seq<bool>)
    requires t.Valid() && WayDown(t, t.root, way)
    ensures Pow2(|way|) <= (|t.order| + 1) * (|t.order| + 1)
  {
    BlacksAreHeight(t, t.root, way);
    StepsBound(t, |way|);
  }

  lemma SquareMonotone(a: nat, b: nat)
    requires a <= b
    ensures a * a <= b * b
  {
    assert a * a <= a * b;
    assert a * b <= b * b;
  }

  /** Walks of at most twice the black height of the root, down or up, are logarithmic like the height. */
  lemma StepsBound(t: Tree, steps: nat)
    requires t.Valid() && steps <= 2 * t.root.bh
    ensures Pow2(steps) <= (|t.order| + 1) * (|t.order| + 1)
  {
    t.RootHeight();
    if t.root != t.sentinel {
      var b := t.root.bh;
      SizeFromBlackHeight(t, t.root);
      Pow2Monotone(steps, b + b);
      Pow2Sum(b, b);
      SquareMonotone(Pow2(b), |t.order| + 1);
    }
  }

  lemma PassesBound(t: Tree, passes: nat)
    requires t.Valid() && passes <= t.root.bh + 1
    ensures Pow2(passes) <= 2 * (|t.order| + 1)
  {
    t.RootHeight();
    if t.root != t.sentinel {
      SizeFromBlackHeight(t, t.root);
      Pow2Monotone(passes, t.root.bh + 1);
    } else {
      Pow2Monotone(passes, 1);
      assert Pow2(1) == 2 * Pow2(0) == 2;
    }
  }

  /** Inserting into a tree of n nodes takes at most 2 * log2(n + 1) steps down and 1 + log2(n + 2) fix-up passes. */
  method InsertCounted(t: Tree, node: Node) returns (ghost steps: nat, ghost passes: nat)
    requires t.Valid() && node !in t.nodes && node != t.sentinel
    modifies t, t.nodes, node
    ensures t.Valid() && t.nodes == old(t.nodes) + {node}
    ensures Pow2(steps) <= (old(|t.order|) + 1) * (old(|t.order|) + 1)
    ensures Pow2(passes) <= 2 * (old(|t.order|) + 2)
  {
    ghost var b := 2 * t.root.bh;
    t.RootHeight();
    StepsBound(t, b);
    steps, passes := t.Insert(node);
    Pow2Monotone(steps, b);
    PassesBound(t, passes);
  }

  /** Deleting from a tree of n nodes takes at most 2 * log2(n + 1) steps down and 1 + log2(n) fix-up passes. */
  method DeleteCounted(t: Tree, node: Node) returns (ghost steps: nat, ghost passes: nat)
    requires t.Valid() && node in t.nodes
    modifies t, t.nodes, t.sentinel
    ensures t.Valid() && t.nodes == old(t.nodes) - {node}
    ensures Pow2(steps) <= (old(|t.order|) + 1) * (old(|t.order|) + 1)
    ensures Pow2(passes) <= 2 * old(|t.order|)
  {
    ghost var b := 2 * t.root.bh;
    t.RootHeight();
    StepsBound(t, b);
    steps, passes := t.Delete(node);
    Pow2Monotone(steps, b);
    PassesBound(t, passes);
  }
}
