/** The hash table with one table (cc_util/cc_hash.c). */
module HashTable {
  import opened Sequences
  import opened CacheNode

  /** hash_func and compare_func; compare answers whether the C function returns zero. */
  type Hash = (Key, nat) -> nat
  type Compare = (Key, Key) -> bool

  /** What the functions must be: the hash picks a bucket, and compare is an equivalence that respects it. */
  ghost predicate Good(hash: Hash, same: Compare, n: nat) {
    && (forall k :: hash(k, n) < n)
    && (forall k :: same(k, k))
    && (forall k, l :: same(k, l) ==> same(l, k) && hash(k, n) == hash(l, n))
    && (forall k, l, m :: same(k, l) && same(l, m) ==> same(k, m))
  }

  // ----- Contents: all nodes in the table, oldest first -----

  function WithoutAt<T>(s: seq<T>, k: nat): seq<T>
    requires k < |s|
  {
    s[..k] + s[k + 1..]
  }

  /** The nodes whose hash is b. */
  function ChainOf(items: seq<Node>, hash: Hash, n: nat, b: nat): seq<Node> {
    if items == [] then []
    else ChainOf(Front(items), hash, n, b) + if hash(Last(items).key, n) == b then [Last(items)] else []
  }

  /** The nodes whose keys are the same as key. */
  function Matches(items: seq<Node>, same: Compare, key: Key): seq<Node> {
    if items == [] then []
    else Matches(Front(items), same, key) + if same(Last(items).key, key) then [Last(items)] else []
  }

  /** The place of the newest node of a key, or -1. */
  function Newest(items: seq<Node>, same: Compare, key: Key): (k: int)
    ensures -1 <= k < |items|
    ensures k >= 0 ==> same(items[k].key, key)
    ensures forall i :: k < i < |items| ==> !same(items[i].key, key)
  {
    if items == [] then -1
    else if same(Last(items).key, key) then |items| - 1
    else Newest(Front(items), same, key)
  }

  lemma {:induction false} ChainConcat(a: seq<Node>, c: seq<Node>, hash: Hash, n: nat, b: nat)
    ensures ChainOf(a + c, hash, n, b) == ChainOf(a, hash, n, b) + ChainOf(c, hash, n, b)
    decreases |c|
  {
    if c == [] {
      assert a + c == a;
    } else {
      ChainConcat(a, Front(c), hash, n, b);
      assert Front(a + c) == a + Front(c) && Last(a + c) == Last(c);
    }
  }

  lemma {:induction false} MatchesConcat(a: seq<Node>, c: seq<Node>, same: Compare, key: Key)
    ensures Matches(a + c, same, key) == Matches(a, same, key) + Matches(c, same, key)
    decreases |c|
  {
    if c == [] {
      assert a + c == a;
    } else {
      MatchesConcat(a, Front(c), same, key);
      assert Front(a + c) == a + Front(c) && Last(a + c) == Last(c);
    }
  }

  lemma SplitAt<T>(s: seq<T>, k: nat)
    requires k < |s|
    ensures s == s[..k] + ([s[k]] + s[k + 1..])
  {}

  lemma Middle<T>(p: seq<T>, x: T, q: seq<T>)
    ensures var s := p + ([x] + q); s[|p|] == x && WithoutAt(s, |p|) == p + q
    ensures p + ([] + q) == p + q
  {}

  lemma ChainOne(x: Node, hash: Hash, n: nat, b: nat)
    ensures ChainOf([x], hash, n, b) == if hash(x.key, n) == b then [x] else []
  {
    assert Front([x]) == [];
  }

  lemma MatchesOne(x: Node, same: Compare, key: Key)
    ensures Matches([x], same, key) == if same(x.key, key) then [x] else []
  {
    assert Front([x]) == [];
  }

  /** Where the node at k stands in its chain. */
  function PlaceOf(items: seq<Node>, hash: Hash, n: nat, k: nat): nat
    requires k < |items|
  {
    |ChainOf(items[..k], hash, n, hash(items[k].key, n))|
  }

  /** A chain without the node at k, and the place of that node in its chain. */
  lemma ChainWithout(items: seq<Node>, hash: Hash, n: nat, b: nat, k: nat)
    requires k < |items|
    ensures var c := ChainOf(items, hash, n, b);
      var j := PlaceOf(items, hash, n, k);
      if hash(items[k].key, n) == b then j < |c| && c[j] == items[k]
          && ChainOf(WithoutAt(items, k), hash, n, b) == WithoutAt(c, j)
      else ChainOf(WithoutAt(items, k), hash, n, b) == c
  {
    hide ChainOf;
    SplitAt(items, k);
    var a, x, r := items[..k], items[k], items[k + 1..];
    ChainConcat(a, [x] + r, hash, n, b);
    ChainConcat([x], r, hash, n, b);
    ChainConcat(a, r, hash, n, b);
    ChainOne(x, hash, n, b);
    var p, q := ChainOf(a, hash, n, b), ChainOf(r, hash, n, b);
    Middle(p, x, q);
    assert WithoutAt(items, k) == a + r;
  }

  lemma {:induction false} NoMatch(items: seq<Node>, same: Compare, key: Key)
    requires forall i :: 0 <= i < |items| ==> !same(items[i].key, key)
    ensures Matches(items, same, key) == []
    decreases |items|
  {
    if items != [] {
      NoMatch(Front(items), same, key);
      assert items[|items| - 1] == Last(items);
    }
  }

  /** The nodes of a key without the node at k. */
  lemma MatchesWithout(items: seq<Node>, same: Compare, key: Key, k: nat)
    requires k < |items|
    ensures var m := Matches(items, same, key);
      var j := |Matches(items[..k], same, key)|;
      if same(items[k].key, key) then j < |m| && m[j] == items[k]
          && Matches(WithoutAt(items, k), same, key) == WithoutAt(m, j)
      else Matches(WithoutAt(items, k), same, key) == m
  {
    hide Matches;
    SplitAt(items, k);
    var a, x, r := items[..k], items[k], items[k + 1..];
    MatchesConcat(a, [x] + r, same, key);
    MatchesConcat([x], r, same, key);
    MatchesConcat(a, r, same, key);
    MatchesOne(x, same, key);
    var p, q := Matches(a, same, key), Matches(r, same, key);
    Middle(p, x, q);
    assert WithoutAt(items, k) == a + r;
  }

  /** A new node of a key comes behind, and before every other in a lookup. */
  lemma InsertPushes(items: seq<Node>, same: Compare, x: Node, key: Key)
    ensures Matches(items + [x], same, key) == Matches(items, same, key) + if same(x.key, key) then [x] else []
  {
    MatchesConcat(items, [x], same, key);
    MatchesOne(x, same, key);
  }

  /** The newest node of a key is the last of its nodes. */
  lemma NewestIsLast(items: seq<Node>, same: Compare, key: Key)
    ensures var k, m := Newest(items, same, key), Matches(items, same, key);
      if k < 0 then m == [] else m != [] && Last(m) == items[k] && |Matches(items[..k], same, key)| == |m| - 1
  {
    hide Matches, Newest;
    var k := Newest(items, same, key);
    if k < 0 {
      NoMatch(items, same, key);
    } else {
      SplitAt(items, k);
      var a, x, r := items[..k], items[k], items[k + 1..];
      MatchesConcat(a, [x] + r, same, key);
      MatchesConcat([x], r, same, key);
      MatchesOne(x, same, key);
      NoMatch(r, same, key);
    }
  }

  /** Deleting a key uncovers its previous node, and leaves the nodes of other keys alone. */
  lemma DeletePops(items: seq<Node>, hash: Hash, same: Compare, n: nat, key: Key, other: Key)
    requires Good(hash, same, n) && Newest(items, same, key) >= 0
    ensures
      var m, rest := Matches(items, same, other), Matches(WithoutAt(items, Newest(items, same, key)), same, other);
      if same(key, other) then m != [] && rest == Front(m) && Last(m) == items[Newest(items, same, key)] else rest == m
  {
    hide Matches, Newest, WithoutAt;
    var k := Newest(items, same, key);
    MatchesWithout(items, same, other, k);
    if same(key, other) {
      SameMatches(items, hash, same, n, key, other);
      SameMatches(items[..k], hash, same, n, key, other);
      NewestIsLast(items, same, key);
      var m := Matches(items, same, other);
      AllButLast(m);
    }
  }

  lemma AllButLast<T>(s: seq<T>)
    requires s != []
    ensures WithoutAt(s, |s| - 1) == Front(s)
  {}

  lemma {:induction false} SameMatches(items: seq<Node>, hash: Hash, same: Compare, n: nat, key: Key, other: Key)
    requires Good(hash, same, n) && same(key, other)
    ensures Matches(items, same, other) == Matches(items, same, key)
    decreases |items|
  {
    if items != [] {
      SameMatches(Front(items), hash, same, n, key, other);
    }
  }

  /** The newest node of a key stands in the chain of its hash behind all others of that key. */
  lemma NewestInChain(items: seq<Node>, hash: Hash, same: Compare, n: nat, key: Key)
    requires Good(hash, same, n)
    ensures var c, k := ChainOf(items, hash, n, hash(key, n)), Newest(items, same, key);
      if k < 0 then forall i :: 0 <= i < |c| ==> !same(c[i].key, key)
      else
        var j := PlaceOf(items, hash, n, k);
        j < |c| && c[j] == items[k] && hash(items[k].key, n) == hash(key, n)
        && forall i :: j < i < |c| ==> !same(c[i].key, key)
  {
    hide ChainOf, Newest;
    var k, b := Newest(items, same, key), hash(key, n);
    if k < 0 {
      ChainFrom(items, hash, same, n, key);
    } else {
      ChainWithout(items, hash, n, b, k);
      SplitAt(items, k);
      var a, x, r := items[..k], items[k], items[k + 1..];
      ChainConcat(a, [x] + r, hash, n, b);
      ChainConcat([x], r, hash, n, b);
      ChainOne(x, hash, n, b);
      ChainFrom(r, hash, same, n, key);
      var p, q := ChainOf(a, hash, n, b), ChainOf(r, hash, n, b);
      BehindMiddle(p, x, q, same, key);
    }
  }

  lemma BehindMiddle(p: seq<Node>, x: Node, q: seq<Node>, same: Compare, key: Key)
    requires forall i :: 0 <= i < |q| ==> !same(q[i].key, key)
    ensures forall i :: |p| < i < |p + ([x] + q)| ==> !same((p + ([x] + q))[i].key, key)
    ensures (p + ([x] + q))[|p|] == x
  {
    forall i | |p| < i < |p + ([x] + q)|
      ensures !same((p + ([x] + q))[i].key, key)
    {
      assert (p + ([x] + q))[i] == q[i - |p| - 1];
    }
  }

  /** Every node of a chain is a node of the table, with the hash of the bucket. */
  lemma {:induction false} ChainIn(items: seq<Node>, hash: Hash, n: nat, b: nat)
    ensures forall i :: 0 <= i < |ChainOf(items, hash, n, b)| ==>
      ChainOf(items, hash, n, b)[i] in items && hash(ChainOf(items, hash, n, b)[i].key, n) == b
    decreases |items|
  {
    if items != [] {
      var f := ChainOf(Front(items), hash, n, b);
      ChainIn(Front(items), hash, n, b);
      forall i | 0 <= i < |ChainOf(items, hash, n, b)|
        ensures ChainOf(items, hash, n, b)[i] in items && hash(ChainOf(items, hash, n, b)[i].key, n) == b
      {
        if i < |f| {
          assert ChainOf(items, hash, n, b)[i] == f[i];
          assert f[i] in Front(items);
        } else {
          assert ChainOf(items, hash, n, b)[i] == Last(items);
        }
      }
    }
  }

  lemma ChainFrom(items: seq<Node>, hash: Hash, same: Compare, n: nat, key: Key)
    requires forall i :: 0 <= i < |items| ==> !same(items[i].key, key)
    ensures forall i :: 0 <= i < |ChainOf(items, hash, n, hash(key, n))| ==>
        !same(ChainOf(items, hash, n, hash(key, n))[i].key, key)
  {
    hide ChainOf;
    var c := ChainOf(items, hash, n, hash(key, n));
    ChainIn(items, hash, n, hash(key, n));
    forall i | 0 <= i < |c|
      ensures !same(c[i].key, key)
    {
      assert c[i] in items;
    }
  }

  // ----- Runs: a stack for each key -----

  /** What a caller does with the table: insert a node, delete a key, remove a node, look a key up. */
  datatype Op = Put(node: Node) | Drop(key: Key) | Remove(node: Node) | Find(key: Key)

  function Without(s: seq<Node>, x: Node): seq<Node> {
    if s == [] then [] else Without(Front(s), x) + if Last(s) == x then [] else [Last(s)]
  }

  /** The contents after an operation. */
  function ItemsStep(items: seq<Node>, same: Compare, op: Op): seq<Node> {
    match op
    case Put(x) => items + [x]
    case Drop(key) =>
      var k := Newest(items, same, key);
      if k < 0 then items else WithoutAt(items, k)
    case Remove(x) => Without(items, x)
    case Find(_) => items
  }

  /** What an operation does to the stack of one key, newest node last. */
  function StackStep(stack: seq<Node>, same: Compare, key: Key, op: Op): seq<Node> {
    match op
    case Put(x) => if same(x.key, key) then stack + [x] else stack
    case Drop(k) => if same(k, key) && stack != [] then Front(stack) else stack
    case Remove(x) => Without(stack, x)
    case Find(_) => stack
  }

  function TopOf(stack: seq<Node>): Node? { if stack == [] then null else Last(stack) }

  function ItemsAfter(items: seq<Node>, same: Compare, ops: seq<Op>): seq<Node>
    decreases |ops|
  {
    if ops == [] then items else ItemsStep(ItemsAfter(items, same, Front(ops)), same, Last(ops))
  }

  function StackAfter(stack: seq<Node>, same: Compare, key: Key, ops: seq<Op>): seq<Node>
    decreases |ops|
  {
    if ops == [] then stack else StackStep(StackAfter(stack, same, key, Front(ops)), same, key, Last(ops))
  }

  ghost function PutNodes(ops: seq<Op>): set<Node> {
    set op | op in ops && op.Put? :: op.node
  }

  lemma NothingDone(items: seq<Node>, same: Compare, ops: seq<Op>)
    ensures ItemsAfter(items, same, ops[..0]) == items
  {}

  lemma StepDone(items: seq<Node>, same: Compare, ops: seq<Op>, j: nat)
    requires j < |ops|
    ensures ItemsAfter(items, same, ops[..j + 1]) == ItemsStep(ItemsAfter(items, same, ops[..j]), same, ops[j])
  {
    assert Front(ops[..j + 1]) == ops[..j] && Last(ops[..j + 1]) == ops[j];
  }

  /** Nothing but the node put there joins the table. */
  lemma StepIn(items: seq<Node>, same: Compare, op: Op)
    ensures forall x :: x in ItemsStep(items, same, op) ==> x in items || (op.Put? && x == op.node)
  {
    if op.Remove? {
      WithoutIn(items, op.node);
    }
  }

  lemma {:induction false} WithoutIn(items: seq<Node>, x: Node)
    ensures forall y :: y in Without(items, x) ==> y in items
    decreases |items|
  {
    if items != [] {
      WithoutIn(Front(items), x);
      assert items == Front(items) + [Last(items)];
    }
  }

  lemma {:induction false} MatchesWithoutNode(items: seq<Node>, same: Compare, key: Key, x: Node)
    ensures Matches(Without(items, x), same, key) == Without(Matches(items, same, key), x)
    decreases |items|
  {
    if items != [] {
      var r, y := Without(Front(items), x), Last(items);
      MatchesWithoutNode(Front(items), same, key, x);
      MatchesConcat(r, [y], same, key);
      MatchesOne(y, same, key);
      var m := Matches(Front(items), same, key);
      assert Front(m + [y]) == m && m + [] == m && r + [] == r && Without(m, x) + [] == Without(m, x);
    }
  }

  lemma MatchesStep(items: seq<Node>, hash: Hash, same: Compare, n: nat, key: Key, op: Op)
    requires Good(hash, same, n)
    ensures Matches(ItemsStep(items, same, op), same, key) == StackStep(Matches(items, same, key), same, key, op)
  {
    hide Matches, Newest, WithoutAt, Without;
    match op
    case Put(x) => InsertPushes(items, same, x, key);
    case Drop(k) =>
      if Newest(items, same, k) >= 0 {
        DeletePops(items, hash, same, n, k, key);
      } else if same(k, key) {
        NewestIsLast(items, same, k);
        SameMatches(items, hash, same, n, k, key);
      }
    case Remove(x) => MatchesWithoutNode(items, same, key, x);
    case Find(_) =>
  }

  /** Through every run, the nodes of each key are a stack of their own: operations on other keys do not touch
      it, and what is deleted or found is the node put there last. */
  lemma {:induction false} LastInFirstOut(items: seq<Node>, hash: Hash, same: Compare, n: nat, key: Key, ops: seq<Op>)
    requires Good(hash, same, n)
    ensures Matches(ItemsAfter(items, same, ops), same, key) == StackAfter(Matches(items, same, key), same, key, ops)
    decreases |ops|
  {
    hide Matches, StackStep, ItemsStep, Good;
    if ops != [] {
      LastInFirstOut(items, hash, same, n, key, Front(ops));
      MatchesStep(ItemsAfter(items, same, Front(ops)), hash, same, n, key, Last(ops));
    }
  }

  /** Removing a node that is there once, by place or by identity. */
  lemma {:induction false} WithoutNode(items: seq<Node>, k: nat)
    requires k < |items| && forall i :: 0 <= i < |items| && items[i] == items[k] ==> i == k
    ensures Without(items, items[k]) == WithoutAt(items, k)
    decreases |items|
  {
    var x, e := items[k], Front(items);
    if k == |items| - 1 {
      WithoutAbsent(e, x);
      assert items[k + 1..] == [] && items[..k] == e;
    } else {
      WithoutNode(e, k);
      assert items[|items| - 1] != x;
      assert WithoutAt(items, k) == WithoutAt(e, k) + [Last(items)];
    }
  }

  lemma {:induction false} WithoutAbsent(items: seq<Node>, x: Node)
    requires x !in items
    ensures Without(items, x) == items
    decreases |items|
  {
    if items != [] {
      assert items == Front(items) + [Last(items)];
      WithoutAbsent(Front(items), x);
    }
  }

  // ----- The size -----

  /** The lengths of the first b chains together. */
  function ChainTotal(items: seq<Node>, hash: Hash, n: nat, b: nat): nat {
    if b == 0 then 0 else ChainTotal(items, hash, n, b - 1) + |ChainOf(items, hash, n, b - 1)|
  }

  lemma {:induction false} ChainTotalNext(items: seq<Node>, hash: Hash, n: nat, b: nat)
    requires items != []
    ensures ChainTotal(items, hash, n, b) ==
      ChainTotal(Front(items), hash, n, b) + if hash(Last(items).key, n) < b then 1 else 0
    decreases b
  {
    hide ChainOf;
    if b > 0 {
      ChainTotalNext(items, hash, n, b - 1);
      ChainLast(items, hash, n, b - 1);
    }
  }

  lemma ChainLast(items: seq<Node>, hash: Hash, n: nat, b: nat)
    requires items != []
    ensures |ChainOf(items, hash, n, b)|
         == |ChainOf(Front(items), hash, n, b)| + if hash(Last(items).key, n) == b then 1 else 0
  {}

  lemma {:induction false} NoChains(hash: Hash, n: nat, b: nat)
    ensures ChainTotal([], hash, n, b) == 0
    decreases b
  {
    if b > 0 {
      NoChains(hash, n, b - 1);
    }
  }

  /** Every node stands in exactly one of the n chains. */
  lemma {:induction false} AllChains(items: seq<Node>, hash: Hash, same: Compare, n: nat)
    requires Good(hash, same, n)
    ensures ChainTotal(items, hash, n, n) == |items|
    decreases |items|
  {
    if items == [] {
      NoChains(hash, n, n);
    } else {
      AllChains(Front(items), hash, same, n);
      ChainTotalNext(items, hash, n, n);
    }
  }

  // ----- The table -----

  class Table {
    const hash: Hash
    const same: Compare
    const buckets: array<Node?>
    var nodeSize: nat
    /** All nodes, oldest first. */
    ghost var items: seq<Node>

    ghost function Chain(b: nat): (c: seq<Node>)
      reads this
      ensures forall i :: 0 <= i < |c| ==> c[i] in items && Bucket(c[i].key) == b
    {
      ChainIn(items, hash, buckets.Length, b);
      ChainOf(items, hash, buckets.Length, b)
    }

    function Bucket(key: Key): nat { hash(key, buckets.Length) }

    /** The node behind the one at place i of a chain c, or the head of the bucket for i == |c|. */
    static ghost function Below(c: seq<Node>, i: int): Node? { if 0 < i <= |c| then c[i - 1] else null }

    /** The chain of bucket b is linked from the newest node to the oldest, and the bucket is its head. */
    ghost predicate BucketLinked(b: nat)
      requires b < buckets.Length
      reads this, buckets, items`slot, items`next
    {
      var c := Chain(b);
      && buckets[b] == Below(c, |c|)
      && forall i :: 0 <= i < |c| ==> c[i].slot == i && c[i].next == Below(c, i)
    }

    ghost predicate Valid()
      reads this, buckets, items`slot, items`next
    {
      && buckets.Length > 0 && Good(hash, same, buckets.Length) && nodeSize == |items|
      && forall b: nat :: b < buckets.Length ==> BucketLinked(b)
    }

    /** What a lookup finds: the newest node of a key. */
    ghost function Found(key: Key): Node?
      reads this
    {
      var k := Newest(items, same, key);
      if k < 0 then null else items[k]
    }

    lemma LinkedIn(b: nat)
      requires Valid() && b < buckets.Length
      ensures buckets[b] == Below(Chain(b), |Chain(b)|)
      ensures forall i :: 0 <= i < |Chain(b)| ==> Chain(b)[i].slot == i && Chain(b)[i].next == Below(Chain(b), i)
    {
      assert BucketLinked(b);
    }

    /** cc_hash_table_create */
    constructor (size: nat, hash: Hash, same: Compare)
      requires Good(hash, same, if size < MIN_BUCKET_SIZE then MIN_BUCKET_SIZE else size)
      ensures Valid() && items == [] && fresh(buckets)
      ensures this.hash == hash && this.same == same
      ensures buckets.Length == if size < MIN_BUCKET_SIZE then MIN_BUCKET_SIZE else size
    {
      this.hash, this.same := hash, same;
      buckets := new Node?[if size < MIN_BUCKET_SIZE then MIN_BUCKET_SIZE else size](i => null);
      nodeSize, items := 0, [];
    }

    /** The newest node of a key is found first in its chain. */
    lemma FirstMatch(key: Key, j: int)
      requires Valid() && 0 <= j <= |Chain(Bucket(key))|
      requires forall i :: j <= i < |Chain(Bucket(key))| ==> !same(Chain(Bucket(key))[i].key, key)
      ensures j == 0 ==> Newest(items, same, key) < 0
      ensures j > 0 && same(Chain(Bucket(key))[j - 1].key, key) ==>
        (var k := Newest(items, same, key);
         k >= 0 && items[k] == Chain(Bucket(key))[j - 1] && PlaceOf(items, hash, buckets.Length, k) == j - 1)
    {
      hide ChainOf, Newest, PlaceOf, BucketLinked, Good;
      NewestInChain(items, hash, same, buckets.Length, key);
    }

    /** cc_hash_table_lookup */
    method Lookup(key: Key) returns (node: Node?)
      requires Valid()
      ensures node == Found(key)
    {
      hide ChainOf, Newest, BucketLinked;
      var index := Bucket(key);
      ghost var c := Chain(index);
      ghost var j: int := |c|;
      LinkedIn(index);
      var current := buckets[index];
      while current != null
        invariant 0 <= j <= |c| && current == Below(c, j)
        invariant forall i :: j <= i < |c| ==> !same(c[i].key, key)
        decreases j
      {
        if same(current.key, key) {
          FirstMatch(key, j);
          return current;
        }
        current, j := current.next, j - 1;
      }
      FirstMatch(key, 0);
      return null;
    }

    // ----- Changes to chains -----

    /** cc_hash_table_insert */
    method Insert(node: Node)
      requires Valid() && node !in items && node.next == null
      modifies this`items, this`nodeSize, buckets, node`next, node`slot
      ensures Valid() && items == old(items) + [node]
    {
      hide ChainOf, BucketLinked;
      var index := Bucket(node.key);
      LinkedIn(index);
      ghost var c := Chain(index);
      if buckets[index] == null {
        buckets[index] := node;
      } else {
        node.next := buckets[index];
        buckets[index] := node;
      }
      nodeSize := nodeSize + 1;
      node.slot := |c|;
      items := items + [node];
      forall b: nat | b < buckets.Length
        ensures BucketLinked(b)
      {
        InsertedBucket(node, index, b);
      }
    }

    twostate lemma InsertedBucket(new node: Node, new index: nat, new b: nat)
      requires old(Valid()) && items == old(items) + [node] && node !in old(items) && b < buckets.Length
      requires index == Bucket(node.key) < buckets.Length && node.next == old(buckets[index])
      requires node.slot == |old(Chain(index))|
      requires forall i :: 0 <= i < buckets.Length ==> buckets[i] == if i == index then node else old(buckets[i])
      requires forall x :: x in old(items) ==> x.next == old(x.next) && x.slot == old(x.slot)
      ensures BucketLinked(b)
    {
      hide ChainOf, Good;
      assert old(BucketLinked(b));
      ChainConcat(old(items), [node], hash, buckets.Length, b);
      ChainOne(node, hash, buckets.Length, b);
      var c := old(Chain(b));
      assert Chain(b) == c + if Bucket(node.key) == b then [node] else [];
      forall i | 0 <= i < |Chain(b)|
        ensures Chain(b)[i].slot == i && Chain(b)[i].next == Below(Chain(b), i)
      {
        if i < |c| {
          assert Chain(b)[i] == c[i];
          assert old(c[i].slot == i && c[i].next == Below(c, i));
        }
      }
    }

    /** A node is in the table only once. */
    lemma Once(i: int, k: int)
      requires Valid() && 0 <= i < |items| && 0 <= k < |items| && items[i] == items[k]
      ensures i == k
    {
      hide ChainOf;
      var b := Bucket(items[i].key);
      ChainWithout(items, hash, buckets.Length, b, i);
      ChainWithout(items, hash, buckets.Length, b, k);
      assert BucketLinked(b);
      if i < k {
        PlacesApart(items, hash, buckets.Length, i, k);
      } else if k < i {
        PlacesApart(items, hash, buckets.Length, k, i);
      }
    }

    /** The chain c has lost the node at place j. */
    twostate predicate Cut(c: seq<Node>, new j: nat)
      requires j < |c|
      reads c
    {
      && (forall i :: 0 <= i < |c| && i != j ==> c[i].slot == if i < j then i else i - 1)
      && (forall i :: 0 <= i < |c| && i != j ==> c[i].next == if i == j + 1 then Below(c, j) else old(c[i].next))
    }

    /** All that does not belong to bucket index is as before. */
    twostate predicate OthersSame(old_: seq<Node>, new index: nat)
      reads this, buckets, old_
    {
      && (forall x :: x in old_ && Bucket(x.key) != index ==> x.next == old(x.next) && x.slot == old(x.slot))
      && (forall i :: 0 <= i < buckets.Length && i != index ==> buckets[i] == old(buckets[i]))
    }

    /** A node of the chain without the one at j. */
    twostate lemma ShiftedNode(c: seq<Node>, new j: nat, new i: nat)
      requires j < |c| && i < |c| - 1 && Cut(c, j)
      requires forall m :: 0 <= m < |c| ==> old(c[m].slot == m && c[m].next == Below(c, m))
      ensures WithoutAt(c, j)[i].slot == i && WithoutAt(c, j)[i].next == Below(WithoutAt(c, j), i)
    {
      var m := if i < j then i else i + 1;
      WithoutPlaces(c, j, i);
      WithoutPlaces(c, j, i - 1);
      assert old(c[m].slot == m && c[m].next == Below(c, m));
      hide WithoutAt;
    }

    static lemma WithoutPlaces(c: seq<Node>, j: nat, i: int)
      requires j < |c|
      ensures |WithoutAt(c, j)| == |c| - 1
      ensures 0 <= i < |c| - 1 ==> WithoutAt(c, j)[i] == c[if i < j then i else i + 1]
    {}

    /** The bucket that lost a node. */
    twostate lemma UnlinkedBucket(c: seq<Node>, new index: nat, new j: nat)
      requires index < buckets.Length && c == old(Chain(index)) && old(BucketLinked(index)) && j < |c|
      requires Chain(index) == WithoutAt(c, j) && Cut(c, j)
      requires buckets[index] == if j + 1 == |c| then Below(c, j) else old(buckets[index])
      ensures BucketLinked(index)
    {
      hide ChainOf, Good, Cut;
      forall i | 0 <= i < |c| - 1
        ensures WithoutAt(c, j)[i].slot == i && WithoutAt(c, j)[i].next == Below(WithoutAt(c, j), i)
      {
        ShiftedNode(c, j, i);
      }
    }

    /** Every other bucket. */
    twostate lemma OtherBucket(new index: nat, new b: nat)
      requires b < buckets.Length && b != index && old(BucketLinked(b)) && OthersSame(old(items), index)
      requires Chain(b) == old(Chain(b))
      ensures BucketLinked(b)
    {
      hide ChainOf, Good;
      var d := Chain(b);
      forall i | 0 <= i < |d|
        ensures d[i].slot == i && d[i].next == Below(d, i)
      {
        assert old(d[i].slot == i && d[i].next == Below(d, i));
      }
    }

    twostate lemma UnlinkedValid(c: seq<Node>, new index: nat, new j: nat, new k: nat)
      requires old(Valid()) && k < |old(items)| && items == WithoutAt(old(items), k) && nodeSize == old(nodeSize) - 1
      requires index == Bucket(old(items)[k].key) < buckets.Length && j == PlaceOf(old(items), hash, buckets.Length, k)
      requires c == old(Chain(index)) && j < |c| && Cut(c, j) && OthersSame(old(items), index)
      requires buckets[index] == if j + 1 == |c| then Below(c, j) else old(buckets[index])
      ensures Valid()
    {
      hide ChainOf, PlaceOf, Good, Cut, OthersSame, BucketLinked;
      ChainWithout(old(items), hash, buckets.Length, index, k);
      UnlinkedBucket(c, index, j);
      forall b: nat | b < buckets.Length
        ensures BucketLinked(b)
      {
        if b != index {
          ChainWithout(old(items), hash, buckets.Length, b, k);
          OtherBucket(index, b);
        }
      }
    }

    static ghost function Above(c: seq<Node>, j: int): Node? { if -1 <= j < |c| - 1 then c[j + 1] else null }

    /** The places above j move down. */
    static ghost method Renumber(c: seq<Node>, j: nat)
      requires forall i :: 0 <= i < |c| ==> c[i].slot == i
      modifies c`slot
      ensures forall i :: 0 <= i < |c| ==> c[i].slot == if i <= j then i else i - 1
    {
      forall i | j < i < |c| {
        c[i].slot := i - 1;
      }
    }

    /** The pointer updates that take a node out of a chain c. */
    method Relink(index: nat, last: Node?, current: Node, ghost c: seq<Node>, ghost j: nat)
      requires index < buckets.Length && j < |c| && c[j] == current && last == Above(c, j)
      requires forall i :: 0 <= i < |c| ==> c[i].slot == i && c[i].next == Below(c, i)
      modifies buckets, c`next, c`slot
      ensures Cut(c, j) && current.next == old(current.next)
      ensures forall i :: 0 <= i < buckets.Length && i != index ==> buckets[i] == old(buckets[i])
      ensures buckets[index] == if j + 1 == |c| then Below(c, j) else old(buckets[index])
    {
      if last != null {
        last.next := current.next;
      } else {
        buckets[index] := current.next;
      }
      Renumber(c, j);
    }

    lemma NotInChain(x: Node, b: nat)
      requires Bucket(x.key) != b
      ensures x !in Chain(b)
    {}

    /** Take the node at k out of its chain, where it is linked from last or from the bucket. */
    method Unlink(index: nat, last: Node?, current: Node, ghost k: nat)
      requires Valid() && k < |items| && items[k] == current && index == Bucket(current.key) < buckets.Length
      requires last == Above(Chain(index), PlaceOf(items, hash, buckets.Length, k))
      modifies this`items, this`nodeSize, buckets, items`next, items`slot
      ensures Valid() && items == WithoutAt(old(items), k) && current.next == old(current.next)
    {
      hide ChainOf, PlaceOf, Good, WithoutAt, BucketLinked, Cut;
      ghost var c, j := Chain(index), PlaceOf(items, hash, buckets.Length, k);
      ChainWithout(items, hash, buckets.Length, index, k);
      LinkedIn(index);
      forall x | x in items && Bucket(x.key) != index
        ensures x !in c
      {
        NotInChain(x, index);
      }
      Relink(index, last, current, c, j);
      nodeSize := nodeSize - 1;
      items := WithoutAt(items, k);
      UnlinkedValid(c, index, j, k);
    }

    /** The next field of a node that has left the table does not matter. */
    lemma LeftFor(k: nat)
      requires Valid() && k < |items|
      ensures items[k] !in WithoutAt(items, k)
    {
      hide Good, BucketLinked;
      if items[k] in WithoutAt(items, k) {
        var i :| 0 <= i < |items| - 1 && WithoutAt(items, k)[i] == items[k];
        Once(if i < k then i else i + 1, k);
      }
    }

    method Detach(node: Node)
      requires Valid() && node !in items
      modifies node`next
      ensures Valid() && node.next == null
    {
      hide BucketLinked;
      node.next := null;
      forall b: nat | b < buckets.Length
        ensures BucketLinked(b)
      {
        StillLinked(node, b);
      }
    }

    twostate lemma StillLinked(node: Node, new b: nat)
      requires b < buckets.Length && old(BucketLinked(b)) && node !in items
      requires items == old(items) && buckets[b] == old(buckets[b])
      requires forall x :: x in items ==> x.next == old(x.next) && x.slot == old(x.slot)
      ensures BucketLinked(b)
    {
      hide ChainOf;
      var c := Chain(b);
      forall i | 0 <= i < |c|
        ensures c[i].slot == i && c[i].next == Below(c, i)
      {
        assert old(c[i].slot == i && c[i].next == Below(c, i));
      }
    }

    /** cc_hash_table_delete: with take, the node is handed out; otherwise destroyed is the node that
        destroy_node_func, if it is set, is called with. */
    method Delete(key: Key, take: bool) returns (node: Node?, destroyed: Node?)
      requires Valid()
      modifies this`items, this`nodeSize, buckets, items`next, items`slot
      ensures Valid()
      ensures var k := old(Newest(items, same, key));
        if k < 0 then items == old(items) && node == destroyed == null
        else
          items == WithoutAt(old(items), k)
          && (if take then node == old(items[k]) && destroyed == null else node == null && destroyed == old(items[k]))
      ensures node != null ==> node.next == null
    {
      hide ChainOf, Newest, BucketLinked, PlaceOf, Good;
      var index := Bucket(key);
      BucketInRange(key);
      ghost var c := Chain(index);
      ghost var j: int := |c|;
      LinkedIn(index);
      var current, last: Node? := buckets[index], null;
      node, destroyed := null, null;
      while current != null
        invariant 0 <= j <= |c| && current == Below(c, j) && last == Above(c, j - 1)
        invariant forall i :: j <= i < |c| ==> !same(c[i].key, key)
        decreases j
      {
        if same(current.key, key) {
          FirstMatch(key, j);
          SameBucket(current.key, key);
          ghost var k := Newest(items, same, key);
          LeftFor(k);
          Unlink(index, last, current, k);
          if take {
            Detach(current);
            node := current;
          } else {
            destroyed := current;
          }
          return;
        }
        last, current, j := current, current.next, j - 1;
      }
      FirstMatch(key, 0);
    }

    lemma BucketInRange(key: Key)
      requires Valid()
      ensures Bucket(key) < buckets.Length
    {}

    lemma SameBucket(key: Key, other: Key)
      requires Valid() && same(key, other)
      ensures Bucket(key) == Bucket(other)
    {}

    /** cc_hash_table_remove: this node and no other, whatever their keys. */
    method Remove(node: Node)
      requires Valid()
      modifies this`items, this`nodeSize, buckets, items`next, items`slot
      ensures Valid()
      ensures node !in old(items) ==> items == old(items)
      ensures forall k :: 0 <= k < |old(items)| && old(items)[k] == node ==> items == WithoutAt(old(items), k)
    {
      hide ChainOf, BucketLinked, PlaceOf, Good, WithoutAt, Chain;
      var index := Bucket(node.key);
      BucketInRange(node.key);
      ghost var c := Chain(index);
      ghost var j: int := |c|;
      LinkedIn(index);
      var current, last: Node? := buckets[index], null;
      while current != null
        invariant 0 <= j <= |c| && current == Below(c, j) && last == Above(c, j - 1)
        invariant forall i :: j <= i < |c| ==> c[i] != node
        decreases j
      {
        if current == node {
          assert c[j - 1] in items;
          ghost var k :| 0 <= k < |items| && items[k] == node;
          PlaceIs(k, j - 1);
          OnlyOnce(k);
          Unlink(index, last, current, k);
          return;
        }
        last, current, j := current, current.next, j - 1;
      }
      NotThere(node);
    }

    lemma PlaceIs(k: int, j: int)
      requires Valid() && 0 <= k < |items| && 0 <= j < |Chain(Bucket(items[k].key))|
      requires Chain(Bucket(items[k].key))[j] == items[k]
      ensures PlaceOf(items, hash, buckets.Length, k) == j
    {
      hide ChainOf, PlaceOf;
      var b := Bucket(items[k].key);
      ChainWithout(items, hash, buckets.Length, b, k);
      LinkedIn(b);
    }

    lemma OnlyOnce(k: int)
      requires Valid() && 0 <= k < |items|
      ensures forall i :: 0 <= i < |items| && items[i] == items[k] ==> i == k
    {
      hide BucketLinked, Good;
      forall i | 0 <= i < |items| && items[i] == items[k]
        ensures i == k
      {
        Once(i, k);
      }
    }

    lemma NotThere(node: Node)
      requires Valid() && forall i :: 0 <= i < |Chain(Bucket(node.key))| ==> Chain(Bucket(node.key))[i] != node
      ensures node !in items
    {
      hide ChainOf, BucketLinked, Good;
      if node in items {
        var k :| 0 <= k < |items| && items[k] == node;
        InChain(k);
      }
    }

    lemma InChain(k: int)
      requires 0 <= k < |items|
      ensures PlaceOf(items, hash, buckets.Length, k) < |Chain(Bucket(items[k].key))|
      ensures Chain(Bucket(items[k].key))[PlaceOf(items, hash, buckets.Length, k)] == items[k]
    {
      hide ChainOf, PlaceOf;
      ChainWithout(items, hash, buckets.Length, Bucket(items[k].key), k);
    }

    /** node_size is the total chain length. */
    lemma SizeIsChains()
      requires Valid()
      ensures nodeSize == ChainTotal(items, hash, buckets.Length, buckets.Length)
      ensures forall b: nat :: b < buckets.Length ==> ChainOf(items, hash, buckets.Length, b) == Chain(b)
    {
      hide ChainTotal, ChainOf, BucketLinked;
      AllChains(items, hash, same, buckets.Length);
    }

    /** One operation of a run; a lookup answers with what it finds. */
    method Step(op: Op) returns (found: Node?)
      requires Valid() && (op.Put? ==> op.node !in items && op.node.next == null)
      modifies this`items, this`nodeSize, buckets, items`next, items`slot
      modifies (if op.Put? then {op.node} else {})`next, (if op.Put? then {op.node} else {})`slot
      ensures Valid() && items == ItemsStep(old(items), same, op)
      ensures found == if op.Find? then old(Found(op.key)) else null
    {
      hide BucketLinked, Good, WithoutAt, Without, Newest;
      found := null;
      match op
      case Put(x) => Insert(x);
      case Drop(key) =>
        var _, _ := Delete(key, false);
      case Find(key) => found := Lookup(key);
      case Remove(x) =>
        RemovedNode(x);
        Remove(x);
    }

    lemma RemovedNode(x: Node)
      requires Valid()
      ensures x !in items ==> Without(items, x) == items
      ensures forall k :: 0 <= k < |items| && items[k] == x ==> Without(items, x) == WithoutAt(items, k)
    {
      hide BucketLinked, Good, WithoutAt, Without;
      if x in items {
        var k :| 0 <= k < |items| && items[k] == x;
        OnlyOnce(k);
        WithoutNode(items, k);
      } else {
        WithoutAbsent(items, x);
      }
    }

    /** Any run on nodes that are new to the table: every lookup answers with the top of the stack of its key. */
    method Run(ops: seq<Op>) returns (found: seq<Node?>)
      requires Valid()
      requires forall i :: 0 <= i < |ops| && ops[i].Put? ==> ops[i].node !in items && ops[i].node.next == null
      requires forall i, j :: 0 <= i < j < |ops| && ops[i].Put? && ops[j].Put? ==> ops[i].node != ops[j].node
      modifies this`items, this`nodeSize, buckets, items`next, items`slot
      modifies PutNodes(ops)`next, PutNodes(ops)`slot
      ensures Valid() && items == ItemsAfter(old(items), same, ops) && |found| == |ops|
      ensures forall j :: 0 <= j < |ops| && ops[j].Find? ==>
        found[j] == TopOf(StackAfter(Matches(old(items), same, ops[j].key), same, ops[j].key, ops[..j]))
    {
      hide BucketLinked, Good, ItemsStep, ItemsAfter, StackAfter, Matches;
      found := [];
      ghost var items0 := items;
      assert ItemsAfter(items0, same, ops[..0]) == items0 by { NothingDone(items0, same, ops); }
      for j := 0 to |ops|
        invariant Valid() && items == ItemsAfter(items0, same, ops[..j]) && |found| == j
        invariant forall x :: x in items ==> x in items0 || x in PutNodes(ops)
        invariant forall i :: j <= i < |ops| && ops[i].Put? ==> ops[i].node !in items && ops[i].node.next == null
        invariant forall i :: 0 <= i < j && ops[i].Find? ==>
          found[i] == TopOf(StackAfter(Matches(items0, same, ops[i].key), same, ops[i].key, ops[..i]))
      {
        StepDone(items0, same, ops, j);
        StepIn(items, same, ops[j]);
        assert ops[j].Put? ==> ops[j].node in PutNodes(ops);
        if ops[j].Find? {
          TopFound(items0, ops[j].key, ops[..j]);
        }
        var f := Step(ops[j]);
        found := found + [f];
      }
      assert ops[..|ops|] == ops;
    }

    /** A lookup finds the top of the stack of its key. */
    lemma TopFound(items0: seq<Node>, key: Key, ops: seq<Op>)
      requires Valid() && items == ItemsAfter(items0, same, ops)
      ensures Found(key) == TopOf(StackAfter(Matches(items0, same, key), same, key, ops))
    {
      hide BucketLinked, Good, ItemsAfter, StackAfter, Matches, Newest;
      LastInFirstOut(items0, hash, same, buckets.Length, key, ops);
      NewestIsLast(items, same, key);
    }
  }

  const MIN_BUCKET_SIZE: nat := 4

  lemma PlacesApart(items: seq<Node>, hash: Hash, n: nat, i: nat, k: nat)
    requires i < k < |items| && hash(items[i].key, n) == hash(items[k].key, n)
    ensures PlaceOf(items, hash, n, i) < PlaceOf(items, hash, n, k)
  {
    var b := hash(items[i].key, n);
    ChainConcat(items[..i], items[i..k], hash, n, b);
    assert items[..i] + items[i..k] == items[..k];
    ChainConcat([items[i]], items[i + 1..k], hash, n, b);
    assert [items[i]] + items[i + 1..k] == items[i..k];
    ChainOne(items[i], hash, n, b);
  }
}
