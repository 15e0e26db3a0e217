/** The timers of the event loop (cc_event/cc_event.c) on the red-black tree, and the guarded
    helpers through which connections set them (cc_http/cc_http_client_request.c). */
module EventLoop {
  import opened RbTree
  import opened TimerQueue

  /** int */
  type Timeout = t: int | -0x8000_0000 <= t < 0x8000_0000

  /** unsigned long arithmetic on current_msec + timeout */
  function Deadline(now: Key, timeout: Timeout): Key {
    (now + timeout) % 0x1_0000_0000_0000_0000
  }

  /** The deadline lies timeout milliseconds ahead, or behind, modulo 2^64. */
  lemma DeadlineIsSum(now: Key, timeout: Timeout)
    ensures 0 <= now + timeout < 0x1_0000_0000_0000_0000 ==> Deadline(now, timeout) == now + timeout
    ensures (Deadline(now, timeout) - now - timeout) % 0x1_0000_0000_0000_0000 == 0
  {}

  /** What a connection asks of the loop: cc_http_context_set_timer, cc_http_context_del_timer. */
  datatype Call<T> = Set(timer: T, timeout: Timeout) | Del(timer: T)

  function ActionOf<T>(c: Call<T>, now: Key): (a: Action<T>)
    ensures a.timer == c.timer
  {
    match c
    case Set(t, timeout) => Arm(t, Deadline(now, timeout))
    case Del(t) => Cancel(t)
  }

  function ActionsOf<T>(calls: seq<Call<T>>, now: Key): (a: seq<Action<T>>)
    ensures |a| == |calls| && forall j :: 0 <= j < |a| ==> a[j] == ActionOf(calls[j], now)
  {
    if calls == [] then [] else [ActionOf(calls[0], now)] + ActionsOf(calls[1..], now)
  }

  /** What the callbacks that make these calls do to the queue at a time. */
  function ScriptAt<T>(script: nat -> seq<Call<T>>, now: Key): nat -> seq<Action<T>> {
    (i: nat) => ActionsOf(script(i), now)
  }

  // ----- Keys -----

  /** The key of timer t after an action, if it was k: an armed timer has its deadline, any other one 0. */
  function KeyAfter<T(==)>(k: Key, t: T, a: Action<T>): Key {
    if a.timer != t then k else if a.Arm? then a.key else 0
  }

  function KeyAfterAll<T(==)>(k: Key, t: T, actions: seq<Action<T>>): Key
    decreases |actions|
  {
    if actions == [] then k else KeyAfterAll(KeyAfter(k, t, actions[0]), t, actions[1..])
  }

  /** A callback that arms for later only leaves a timer alone, cancels it or arms it for later. */
  lemma {:induction false} KeyLater<T>(k: Key, t: T, actions: seq<Action<T>>, now: Key)
    requires forall j :: 0 <= j < |actions| ==> Later(actions[j], now)
    ensures var r := KeyAfterAll(k, t, actions); r == k || r == 0 || r > now
    decreases |actions|
  {
    if actions != [] {
      KeyLater(KeyAfter(k, t, actions[0]), t, actions[1..], now);
    }
  }

  /** The timers of a ledger of keys that are due. */
  function DueTimers<T>(keys: map<T, Key>, now: Key): set<T> {
    set t | t in keys && 0 < keys[t] <= now
  }

  /** What became of the keys was since the loop began, without any window: what was fired was due with its
      key of that time, was fired once, and is no longer due; no other timer became due. */
  ghost predicate Fired<T>(fired: Queue<T>, was: map<T, Key>, keys: map<T, Key>, now: Key) {
    && keys.Keys == was.Keys
    && (forall j {:trigger fired[j]} :: 0 <= j < |fired| ==>
          && fired[j].timer in was && 0 < fired[j].key <= now && fired[j].key == was[fired[j].timer]
          && fired[j].timer !in DueTimers(keys, now))
    && (forall i, j {:trigger fired[i], fired[j]} :: 0 <= i < j < |fired| ==> fired[i].timer != fired[j].timer)
    && (forall t {:trigger keys[t]} :: t in keys ==> keys[t] == was[t] || keys[t] == 0 || keys[t] > now)
  }

  /** One pass of the loop leaves fewer due timers, whatever the order in which they fire. */
  lemma FiredNext<T>(fired: Queue<T>, was: map<T, Key>, keys: map<T, Key>, next: map<T, Key>, t: T,
                     actions: seq<Action<T>>, now: Key)
    requires Fired(fired, was, keys, now) && next.Keys == keys.Keys && t in DueTimers(keys, now)
    requires forall j :: 0 <= j < |actions| ==> Later(actions[j], now)
    requires forall u :: u in keys ==> next[u] == KeyAfterAll(if u == t then 0 else keys[u], u, actions)
    ensures Fired(fired + [Entry(t, keys[t])], was, next, now)
    ensures |DueTimers(next, now)| < |DueTimers(keys, now)|
  {
    forall u | u in keys
      ensures (u != t && next[u] == keys[u]) || next[u] == 0 || next[u] > now
    {
      KeyLater(if u == t then 0 else keys[u], u, actions, now);
    }
    Fewer(DueTimers(next, now), DueTimers(keys, now), t);
  }

  lemma FiredNothing<T>(keys: map<T, Key>, now: Key)
    ensures Fired([], keys, keys, now)
  {}

  lemma Fewer<T>(a: set<T>, b: set<T>, t: T)
    requires a <= b && t in b && t !in a
    ensures |a| < |b|
  {
    FewerOrEqual(a, b - {t});
  }

  lemma {:induction false} FewerOrEqual<T>(a: set<T>, b: set<T>)
    requires a <= b
    ensures |a| <= |b|
    decreases a
  {
    if t :| t in a {
      FewerOrEqual(a - {t}, b - {t});
    }
  }

  // ----- Windows -----

  /** The keys of q lie in one window narrower than 2^31 that starts at base. */
  ghost predicate InWindow<T>(q: Queue<T>, base: int) {
    forall i :: 0 <= i < |q| ==> base <= q[i].key < base + 0x8000_0000
  }

  ghost predicate ArmsInWindow<T>(actions: seq<Action<T>>, base: int) {
    forall j :: 0 <= j < |actions| && actions[j].Arm? ==>
        base <= actions[j].key < base + 0x8000_0000 && actions[j].key > 0
  }

  lemma ApplyInWindow<T>(q: Queue<T>, a: Action<T>, base: int)
    requires InWindow(q, base) && ArmsInWindow([a], base)
    ensures InWindow(Apply(q, a), base)
  {
    assert [a][0] == a;
    var w := Without(q, a.timer);
    forall i | 0 <= i < |w| ensures base <= w[i].key < base + 0x8000_0000 {
      WithoutIn(q, a.timer, w[i]);
    }
    if a.Arm? {
      var r := Apply(q, a);
      forall i | 0 <= i < |r| ensures base <= r[i].key < base + 0x8000_0000 {
        InsertIn(w, Entry(a.timer, a.key), r[i]);
      }
    }
  }

  /** The keys of q are in order and in the window that starts at base. */
  ghost predicate Live<T>(q: Queue<T>, base: int)
    decreases |q|
  {
    q == [] || (base <= q[0].key < base + 0x8000_0000 && (|q| > 1 ==> q[0].key <= q[1].key) && Live(q[1..], base))
  }

  lemma {:induction false} LiveMeans<T>(q: Queue<T>, base: int)
    ensures Live(q, base) <==> Ordered(q) && InWindow(q, base)
  {
    if q != [] {
      LiveMeans(q[1..], base);
      if Live(q, base) {
        forall i, j | 0 <= i < j < |q| ensures q[i].key <= q[j].key {
          assert q[i] == if i == 0 then q[0] else q[1..][i - 1];
          assert q[j] == q[1..][j - 1] && q[1] == q[1..][0];
        }
      }
      if Ordered(q) && InWindow(q, base) {
        forall i, j | 0 <= i < j < |q[1..]| ensures q[1..][i].key <= q[1..][j].key {
          assert q[1..][i] == q[i + 1] && q[1..][j] == q[j + 1];
        }
      }
    }
  }

  lemma ApplyLive<T>(q: Queue<T>, a: Action<T>, base: int)
    requires Live(q, base) && ArmsInWindow([a], base)
    ensures Live(Apply(q, a), base) && (a.Arm? ==> a.key > 0 && Admits(q, a.key))
  {
    LiveMeans(q, base);
    ApplyOrdered(q, a);
    ApplyInWindow(q, a, base);
    LiveMeans(Apply(q, a), base);
    assert [a][0] == a;
  }

  lemma LiveRest<T>(q: Queue<T>, base: int)
    requires q != [] && Live(q, base)
    ensures Live(q[1..], base)
  {}

  lemma FirstOut<T>(q: Queue<T>)
    requires DistinctTimers(q) && q != []
    ensures Without(q, q[0].timer) == q[1..]
  {
    WithoutAt(q, 0);
    assert q[..0] + q[1..] == q[1..];
  }

  /** All keys of q differ from k by less than 2^31. */
  ghost predicate NearAll<T>(q: Queue<T>, k: Key) {
    forall i :: 0 <= i < |q| ==> -0x8000_0000 < q[i].key - k < 0x8000_0000
  }

  /** The timer order places the key k in q where the plain order does. */
  ghost predicate Admits<T>(q: Queue<T>, k: Key) {
    Ordered(q) && NearAll(q, k)
  }

  lemma WithoutAdmits<T>(q: Queue<T>, t: T, k: Key)
    requires Admits(q, k)
    ensures Admits(Without(q, t), k)
  {
    WithoutOrdered(q, t);
    var r := Without(q, t);
    forall i | 0 <= i < |r| ensures -0x8000_0000 < r[i].key - k < 0x8000_0000 {
      WithoutIn(q, t, r[i]);
    }
  }

  // ----- Runs -----

  /** A step of a run: time goes on, a connection sets or cancels a timer, or the timer loop makes a pass
      whose callback, if one is called, makes the given calls. */
  datatype Op = Tick(msec: Key) | Request(call: Call<Node>) | OnePass(calls: seq<Call<Node>>)

  /** The timers that a step names. */
  function TimersOf(op: Op): (ts: set<Node>) {
    match op
    case Tick(_) => {}
    case Request(c) => {c.timer}
    case OnePass(calls) => set c | c in calls :: c.timer
  }

  function TimeAfter(now: Key, ops: seq<Op>): Key
    decreases |ops|
  {
    if ops == [] then now
    else
      var n := |ops| - 1;
      if ops[n].Tick? then ops[n].msec else TimeAfter(now, ops[..n])
  }

  /** The key of t after one step that fired node, if any. */
  function KeyAfterOp(k: Key, t: Node, now: Key, op: Op, node: Node?): Key {
    match op
    case Tick(_) => k
    case Request(c) => KeyAfter(k, t, ActionOf(c, now))
    case OnePass(calls) => if node == null then k else KeyAfterAll(if t == node then 0 else k, t, ActionsOf(calls, now))
  }

  /** The key of t after a run whose steps fired these nodes. */
  function KeyAfterRun(k: Key, t: Node, now: Key, ops: seq<Op>, fired: seq<Node?>): Key
    requires |fired| == |ops|
    decreases |ops|
  {
    if ops == [] then k
    else
      var n := |ops| - 1;
      KeyAfterOp(KeyAfterRun(k, t, now, ops[..n], fired[..n]), t, TimeAfter(now, ops[..n]), ops[n], fired[n])
  }

  /** q lists the timers that are armed after a run, each once and with its key. */
  ghost predicate Lists(q: Queue<Node>, keys: map<Node, Key>, now: Key, ops: seq<Op>, fired: seq<Node?>)
    requires |fired| == |ops|
  {
    && DistinctTimers(q)
    && (forall i {:trigger q[i]} :: 0 <= i < |q| ==>
          (q[i].timer in keys && 0 < q[i].key == KeyAfterRun(keys[q[i].timer], q[i].timer, now, ops, fired)))
    && (forall t :: t in keys && KeyAfterRun(keys[t], t, now, ops, fired) > 0 ==>
          exists i {:trigger q[i]} :: 0 <= i < |q| && q[i].timer == t)
  }

  /** What the j-th step of a run finds in the tree and fires: a pass of the loop fires if and only if the
      first timer of the tree is due, and then that timer. */
  ghost predicate StepFires(keys: map<Node, Key>, now: Key, ops: seq<Op>, fired: seq<Node?>, q: Queue<Node>, op: Op,
                            node: Node?)
    requires |fired| == |ops|
  {
    && Lists(q, keys, now, ops, fired)
    && (node != null <==> op.OnePass? && Due(q, TimeAfter(now, ops)))
    && (node != null ==> node == q[0].timer)
  }

  ghost predicate FiresDue(keys: map<Node, Key>, now: Key, ops: seq<Op>, fired: seq<Node?>, queues: seq<Queue<Node>>) {
    && |queues| == |fired| == |ops|
    && forall j {:trigger queues[j]} :: 0 <= j < |ops| ==>
         StepFires(keys, now, ops[..j], fired[..j], queues[j], ops[j], fired[j])
  }

  /** So every timer that a run fires is armed and due at that time, and an armed timer that is due makes a
      pass fire if all armed timers are due. */
  lemma FiresArmed(keys: map<Node, Key>, now: Key, ops: seq<Op>, fired: seq<Node?>, queues: seq<Queue<Node>>, j: nat)
    requires FiresDue(keys, now, ops, fired, queues) && j < |ops|
    ensures fired[j] != null ==> ops[j].OnePass? && fired[j] in keys
    ensures fired[j] != null ==>
      0 < KeyAfterRun(keys[fired[j]], fired[j], now, ops[..j], fired[..j]) <= TimeAfter(now, ops[..j])
    ensures ops[j].OnePass? && fired[j] == null ==>
      ((forall t :: t in keys ==> KeyAfterRun(keys[t], t, now, ops[..j], fired[..j]) == 0)
       || exists t :: t in keys && KeyAfterRun(keys[t], t, now, ops[..j], fired[..j]) > TimeAfter(now, ops[..j]))
  {
    hide KeyAfterRun, TimeAfter;
    var q := queues[j];
    assert StepFires(keys, now, ops[..j], fired[..j], q, ops[j], fired[j]);
    if q != [] {
      assert q[0].timer in keys;
    }
  }

  /** A step that sets, cancels or fires t. */
  ghost predicate StepTouches(op: Op, node: Node?, t: Node) {
    match op
    case Tick(_) => false
    case Request(c) => c.timer == t
    case OnePass(calls) => node != null && (node == t || exists k :: 0 <= k < |calls| && calls[k].timer == t)
  }

  lemma {:induction false} UntouchedKey<T>(k: Key, t: T, calls: seq<Call<T>>, now: Key)
    requires forall i :: 0 <= i < |calls| ==> calls[i].timer != t
    ensures KeyAfterAll(k, t, ActionsOf(calls, now)) == k
    decreases |calls|
  {
    if calls != [] {
      UntouchedKey(k, t, calls[1..], now);
      var a := ActionsOf(calls, now);
      assert a[1..] == ActionsOf(calls[1..], now);
    }
  }

  lemma UntouchedStep(k: Key, t: Node, now: Key, op: Op, node: Node?)
    requires !StepTouches(op, node, t)
    ensures KeyAfterOp(k, t, now, op, node) == k
  {
    if op.OnePass? && node != null {
      UntouchedKey(k, t, op.calls, now);
    }
  }

  lemma {:induction false} KeyKept(k: Key, t: Node, now: Key, ops: seq<Op>, fired: seq<Node?>, j: nat, i: nat)
    requires |fired| == |ops| && j <= i <= |ops|
    requires forall n :: j <= n < i ==> !StepTouches(ops[n], fired[n], t)
    ensures KeyAfterRun(k, t, now, ops[..i], fired[..i]) == KeyAfterRun(k, t, now, ops[..j], fired[..j])
    decreases i
  {
    hide KeyAfterRun, KeyAfterOp, StepTouches, TimeAfter;
    if j < i {
      KeyKept(k, t, now, ops, fired, j, i - 1);
      RunNext(ops, i - 1, fired[..i - 1], fired[i - 1], k, t, now);
      assert fired[..i] == fired[..i - 1] + [fired[i - 1]];
      UntouchedStep(KeyAfterRun(k, t, now, ops[..i - 1], fired[..i - 1]), t, TimeAfter(now, ops[..i - 1]), ops[i - 1],
                    fired[i - 1]);
    }
  }

  /** A timer that is set at time m for d milliseconds, until a later step sets, cancels or fires it: it is not
      fired while the time is below m + d, and from then on it is due in every pass. */
  lemma DueAtItsTime(keys: map<Node, Key>, now: Key, ops: seq<Op>, fired: seq<Node?>, queues: seq<Queue<Node>>,
                     j: nat, i: nat, t: Node, d: Timeout)
    requires FiresDue(keys, now, ops, fired, queues) && j < i < |ops| && t in keys
    requires ops[j] == Request(Set(t, d)) && d > 0 && TimeAfter(now, ops[..j]) + d < 0x1_0000_0000_0000_0000
    requires forall n :: j < n < i ==> !StepTouches(ops[n], fired[n], t)
    ensures var m, time := TimeAfter(now, ops[..j]), TimeAfter(now, ops[..i]);
      && (fired[i] == t ==> time >= m + d)
      && (exists k :: 0 <= k < |queues[i]| && queues[i][k] == Entry(t, m + d))
      && (ops[i].OnePass? && fired[i] == null ==> queues[i][0].key > time)
  {
    hide KeyAfterRun, TimeAfter, StepTouches, Deadline;
    var m, time := TimeAfter(now, ops[..j]), TimeAfter(now, ops[..i]);
    var k0 := KeyAfterRun(keys[t], t, now, ops[..j], fired[..j]);
    RunNext(ops, j, fired[..j], fired[j], keys[t], t, now);
    assert fired[..j + 1] == fired[..j] + [fired[j]];
    DeadlineIsSum(m, d);
    KeyKept(keys[t], t, now, ops, fired, j + 1, i);
    assert KeyAfterRun(keys[t], t, now, ops[..i], fired[..i]) == m + d;
    assert StepFires(keys, now, ops[..i], fired[..i], queues[i], ops[i], fired[i]);
    var k :| 0 <= k < |queues[i]| && queues[i][k].timer == t;
    assert queues[i][k] == Entry(t, m + d);
  }

  lemma RunNext(ops: seq<Op>, j: nat, fired: seq<Node?>, node: Node?, k: Key, t: Node, now: Key)
    requires j < |ops| && |fired| == j
    ensures KeyAfterRun(k, t, now, ops[..j + 1], fired + [node])
         == KeyAfterOp(KeyAfterRun(k, t, now, ops[..j], fired), t, TimeAfter(now, ops[..j]), ops[j], node)
    ensures TimeAfter(now, ops[..j + 1]) == if ops[j].Tick? then ops[j].msec else TimeAfter(now, ops[..j])
  {
    var p := ops[..j + 1];
    assert p[..j] == ops[..j] && p[j] == ops[j] && (fired + [node])[..j] == fired;
  }

  lemma FiresNext(keys: map<Node, Key>, now: Key, ops: seq<Op>, fired: seq<Node?>, queues: seq<Queue<Node>>,
                  node: Node?, q: Queue<Node>)
    requires |fired| < |ops| && FiresDue(keys, now, ops[..|fired|], fired, queues)
    requires StepFires(keys, now, ops[..|fired|], fired, q, ops[|fired|], node)
    ensures FiresDue(keys, now, ops[..|fired| + 1], fired + [node], queues + [q])
  {
    hide StepFires;
    var n := |fired|;
    var p, f, r := ops[..n + 1], fired + [node], queues + [q];
    forall i | 0 <= i < n + 1
      ensures StepFires(keys, now, p[..i], f[..i], r[i], p[i], f[i])
    {
      assert p[..i] == ops[..i] == ops[..n][..i] && f[..i] == fired[..i];
      if i < n {
        assert r[i] == queues[i] && p[i] == ops[..n][i] && f[i] == fired[i];
        assert StepFires(keys, now, ops[..n][..i], fired[..i], queues[i], ops[..n][i], fired[i]);
      } else {
        assert fired[..i] == fired;
      }
    }
  }

  ghost function Entries(s: seq<Node>): (q: Queue<Node>)
    reads s
    ensures |q| == |s| && forall i {:trigger q[i]} {:trigger s[i]} :: 0 <= i < |s| ==> q[i] == Entry(s[i], s[i].key)
  {
    if s == [] then [] else [Entry(s[0], s[0].key)] + Entries(s[1..])
  }

  class Loop {
    const tree: Tree
    var now: Key                // current_msec
    ghost var timers: set<Node> // every timer known to the loop, armed or not

    constructor (sentinel: Node, msec: Key)
      modifies sentinel
      ensures Valid() && fresh(tree) && tree.sentinel == sentinel && timers == {} && now == msec
    {
      tree := new Tree(sentinel, true);
      now, timers := msec, {};
    }

    /** A timer node is in the tree exactly when its key is positive. */
    ghost predicate Valid()
      reads this, tree, tree.nodes, timers, tree.sentinel
    {
      && tree.Valid() && tree.timerWalk && tree.nodes <= timers && tree.sentinel !in timers
      && forall t {:trigger t.key} :: t in timers ==> (t in tree.nodes <==> t.key > 0)
    }

    ghost function Contents(): Queue<Node>
      reads tree, tree.order
    {
      Entries(tree.order)
    }

    /** New timers start with key 0. */
    ghost method Register(ts: set<Node>)
      requires Valid() && ts !! timers && tree.sentinel !in ts && forall t :: t in ts ==> t.key == 0
      modifies `timers
      ensures Valid() && timers == old(timers) + ts && Contents() == old(Contents())
    {
      timers := timers + ts;
    }

    /** cc_del_time_event */
    method DelTimeEvent(t: Node)
      requires Valid() && t in timers
      modifies tree, timers, tree.sentinel
      ensures Valid() && t.key == 0
      ensures forall n :: n in timers && n != t ==> n.key == old(n.key)
      ensures Contents() == Without(old(Contents()), t)
    {
      if t.key > 0 {
        var _, _ := tree.Delete(t);
        RemovedContents(t);
      } else {
        WithoutAbsent(Contents(), t);
      }
    }

    twostate lemma RemovedContents(t: Node)
      requires old(Valid()) && tree.Removed(t)
      requires forall n {:trigger n in old(tree.nodes)} :: n in old(tree.nodes) && n != t ==> n.key == old(n.key)
      ensures Contents() == Without(old(Contents()), t)
    {
      hide Without;
      var q, p := old(Contents()), old(t.pos);
      WereDistinct();
      WithoutAt(q, p);
      var r := q[..p] + q[p + 1..];
      forall i | 0 <= i < |r|
        ensures Contents()[i] == r[i]
      {
        var n := old(tree.order)[if i < p then i else i + 1];
        assert tree.order[i] == n && n in old(tree.nodes) && n != t;
      }
    }

    twostate lemma WereDistinct()
      requires old(tree.Indexed())
      ensures old(DistinctTimers(Contents()))
    {
      forall i, j | 0 <= i < j < |old(tree.order)|
        ensures old(Contents()[i].timer != Contents()[j].timer)
      {
        assert old(tree.order[i].pos == i && tree.order[j].pos == j);
      }
    }

    /** cc_add_time_event */
    method AddTimeEvent(t: Node)
      requires tree.Valid() && tree.timerWalk && tree.nodes <= timers && tree.sentinel !in timers
      requires t in timers && t !in tree.nodes
      requires forall n {:trigger n.key} :: n in timers && n != t ==> (n in tree.nodes <==> n.key > 0)
      modifies tree, timers`left, timers`right, timers`parent, timers`red, timers`pos, timers`lo, timers`hi, timers`bh
      ensures Valid() && tree.nodes == old(tree.nodes) + (if t.key > 0 then {t} else {})
      ensures old(Admits(Contents(), t.key)) && t.key > 0 ==>
                Contents() == Insert(old(Contents()), Entry(t, t.key))
      ensures t.key == 0 ==> Contents() == old(Contents())
    {
      if t.key > 0 {
        ghost var sorted := Admits(Contents(), t.key);
        if sorted {
          SortedTree(t.key);
          tree.SplitsAtRank(t.key);
        }
        var _, _ := tree.Insert(t);
        if sorted {
          AddedContents(t);
        }
      }
    }

    lemma SortedTree(k: Key)
      requires tree.Valid() && Admits(Contents(), k)
      ensures tree.Sorted() && tree.Near(k)
    {
      var q := Contents();
      assert forall i :: 0 <= i < |q| ==> q[i].key == tree.order[i].key;
    }

    twostate lemma AddedContents(t: Node)
      requires old(tree.Valid() && tree.Sorted() && tree.Near(t.key)) && t !in old(tree.nodes)
      requires tree.nodes == old(tree.nodes) + {t} && t.pos == old(tree.Rank(t.key)) && 0 <= t.pos <= |old(tree.order)|
      requires tree.order == old(tree.order)[..t.pos] + [t] + old(tree.order)[t.pos..]
      requires t.key == old(t.key)
      requires forall n {:trigger n in old(tree.nodes)} :: n in old(tree.nodes) ==> n.key == old(n.key)
      ensures Contents() == Insert(old(Contents()), Entry(t, t.key))
    {
      var q, r := old(Contents()), t.pos;
      InsertAt(q, Entry(t, t.key), r);
      var s := q[..r] + [Entry(t, t.key)] + q[r..];
      forall i | 0 <= i < |s| ensures Contents()[i] == s[i] {
        assert tree.order[i] == if i < r then old(tree.order)[i] else if i == r then t else old(tree.order)[i - 1];
        assert i != r ==> tree.order[i] in old(tree.nodes);
      }
    }

    /** cc_http_context_del_timer */
    method DelTimer(t: Node)
      requires Valid() && t in timers
      modifies tree, timers, tree.sentinel
      ensures Valid() && t.key == 0
      ensures forall n :: n in timers && n != t ==> n.key == old(n.key)
      ensures Contents() == Apply(old(Contents()), Cancel(t))
    {
      if t.key > 0 {
        DelTimeEvent(t);
      } else {
        WithoutAbsent(Contents(), t);
      }
    }

    /** cc_http_context_set_timer */
    method SetTimer(t: Node, timeout: Timeout)
      requires Valid() && t in timers
      modifies tree, timers, tree.sentinel
      ensures Valid() && t.key == Deadline(now, timeout) && (t.key > 0 <==> t in tree.nodes)
      ensures 0 <= now + timeout < 0x1_0000_0000_0000_0000 ==> t.key == now + timeout
      ensures (t.key - now - timeout) % 0x1_0000_0000_0000_0000 == 0
      ensures forall n :: n in timers && n != t ==> n.key == old(n.key)
      ensures old(Admits(Contents(), Deadline(now, timeout))) ==>
                Contents() == Apply(old(Contents()), Arm(t, Deadline(now, timeout)))
    {
      hide Valid, Admits, Apply, Deadline;
      ArmAt(t, Deadline(now, timeout));
      DeadlineIsSum(now, timeout);
    }

    /** An armed timer is taken out before it gets its new key. */
    method ArmAt(t: Node, k: Key)
      requires Valid() && t in timers
      modifies tree, timers, tree.sentinel
      ensures Valid() && t.key == k && (t.key > 0 <==> t in tree.nodes)
      ensures forall n :: n in timers && n != t ==> n.key == old(n.key)
      ensures old(Admits(Contents(), k)) ==> Contents() == Apply(old(Contents()), Arm(t, k))
    {
      hide Admits, Without, Insert;
      if Admits(Contents(), k) {
        WithoutAdmits(Contents(), t, k);
      }
      DelTimer(t);
      ghost var q := Contents();
      t.key := k;
      assert Contents() == q;
      AddTimeEvent(t);
    }

    method RunCall(c: Call<Node>, ghost base: int)
      requires Valid() && c.timer in timers
      modifies tree, timers, tree.sentinel
      ensures Valid() && forall t :: t in timers ==> t.key == KeyAfter(old(t.key), t, ActionOf(c, now))
      ensures old(Live(Contents(), base)) && ArmsInWindow([ActionOf(c, now)], base) ==>
                Live(Contents(), base) && Contents() == Apply(old(Contents()), ActionOf(c, now))
    {
      hide Valid, Admits, Deadline, Apply, Live, ArmsInWindow;
      ghost var a := ActionOf(c, now);
      if Live(Contents(), base) && ArmsInWindow([a], base) {
        ApplyLive(Contents(), a, base);
      }
      match c
      case Del(t) => DelTimer(t);
      case Set(t, timeout) => SetTimer(t, timeout);
    }

    /** One callback: the timer helpers it calls. */
    method RunCallback(calls: seq<Call<Node>>, ghost base: int)
      requires Valid() && forall j :: 0 <= j < |calls| ==> calls[j].timer in timers
      modifies tree, timers, tree.sentinel
      ensures Valid() && forall t :: t in timers ==> t.key == KeyAfterAll(old(t.key), t, ActionsOf(calls, now))
      ensures old(Live(Contents(), base)) && ArmsInWindow(ActionsOf(calls, now), base) ==>
                Live(Contents(), base) && Contents() == ApplyAll(old(Contents()), ActionsOf(calls, now))
    {
      hide Valid, Live, Apply, KeyAfter;
      ghost var actions := ActionsOf(calls, now);
      ghost var near := Live(Contents(), base) && ArmsInWindow(actions, base);
      assert actions[0..] == actions;
      for j := 0 to |calls|
        invariant Valid()
        invariant forall t :: t in timers ==> KeyAfterAll(t.key, t, actions[j..]) == KeyAfterAll(old(t.key), t, actions)
        invariant near ==> Live(Contents(), base)
        invariant near ==> ApplyAll(Contents(), actions[j..]) == ApplyAll(old(Contents()), actions)
      {
        assert actions[j..][0] == actions[j] && actions[j..][1..] == actions[j + 1..];
        RunCall(calls[j], base);
      }
      assert actions[|calls|..] == [];
    }

    /** The first node of the tree is the first entry of the queue. */
    lemma FirstEntry()
      requires Valid() && tree.root != tree.sentinel
      ensures var q := Contents(); q != [] && q[0] == Entry(tree.order[tree.root.lo], tree.order[tree.root.lo].key)
      ensures tree.root in tree.nodes && Contents()[0].timer in timers
      ensures Without(Contents(), Contents()[0].timer) == Contents()[1..]
    {
      assert tree.Linked(tree.root);
      DistinctContents();
      FirstOut(Contents());
    }

    lemma DistinctContents()
      requires tree.Indexed()
      ensures DistinctTimers(Contents())
    {
      forall i, j | 0 <= i < j < |tree.order| ensures Contents()[i].timer != Contents()[j].timer {
        assert tree.order[i].pos == i && tree.order[j].pos == j;
      }
    }

    /** The first timer, if it is due. */
    method FirstDue() returns (node: Node?)
      requires Valid()
      ensures Due(Contents(), now) <==> node != null
      ensures node != null ==> var e := Contents()[0];
        node in timers && e.timer == node && e.key == node.key && Without(Contents(), e.timer) == Contents()[1..]
    {
      if tree.root == tree.sentinel {
        return null;
      }
      FirstEntry();
      var first, _ := tree.Min(tree.root);
      node := first;
      if node.key > now {
        node := null;
      }
    }

    /** A timer is linked at most once, and if and only if its key is positive. */
    lemma LinkedOnce()
      requires Valid()
      ensures forall t :: t in timers ==> (t.key > 0 <==> t in tree.order)
      ensures forall i, j :: 0 <= i < j < |tree.order| ==> tree.order[i] != tree.order[j]
    {
      forall t | t in timers
        ensures t.key > 0 <==> t in tree.order
      {
        assert t in tree.nodes ==> tree.order[t.pos] == t;
      }
      forall i, j | 0 <= i < j < |tree.order|
        ensures tree.order[i] != tree.order[j]
      {
        assert tree.order[i].pos == i && tree.order[j].pos == j;
      }
    }

    // ----- The timer loop -----

    /** The body of the loop: the first timer, if it is due, is taken out before its callback runs. */
    method Pass(calls: seq<Call<Node>>, ghost base: int) returns (node: Node?, key: Key)
      requires Valid() && forall j :: 0 <= j < |calls| ==> calls[j].timer in timers
      modifies tree, timers, tree.sentinel
      ensures Valid() && (node != null <==> old(Due(Contents(), now)))
      ensures node == null ==> Contents() == old(Contents()) && forall t :: t in timers ==> t.key == old(t.key)
      ensures node != null ==> node in timers && 0 < key == old(node.key) <= now
      ensures node != null ==> var e := old(Contents())[0]; e.timer == node && e.key == key
      ensures node != null ==> forall t :: t in timers ==>
                t.key == KeyAfterAll(if t == node then 0 else old(t.key), t, ActionsOf(calls, now))
      ensures node != null && old(Live(Contents(), base)) && ArmsInWindow(ActionsOf(calls, now), base) ==>
                Live(Contents(), base) && Contents() == ApplyAll(old(Contents())[1..], ActionsOf(calls, now))
    {
      hide Live, ArmsInWindow, KeyAfterAll, ApplyAll;
      node := FirstDue();
      key := 0;
      if node != null {
        key := node.key;
        if Live(Contents(), base) {
          LiveRest(Contents(), base);
        }
        DelTimeEvent(node);
        RunCallback(calls, base);
      }
    }

    /** Every callback of the script touches known timers only. */
    ghost predicate Known(script: nat -> seq<Call<Node>>)
      reads this
    {
      forall i: nat, j :: 0 <= j < |script(i)| ==> script(i)[j].timer in timers
    }

    /** Live keys and those that the callbacks arm lie in one window narrower than 2^31. */
    ghost predicate Windowed(script: nat -> seq<Call<Node>>, base: int)
      reads this, tree, tree.order
    {
      Ordered(Contents()) && Live(Contents(), base) && forall i: nat :: ArmsInWindow(ScriptAt(script, now)(i), base)
    }

    ghost function Keys(): map<Node, Key>
      reads this, timers
    {
      map t | t in timers :: t.key
    }

    /** process_timer_events: the i-th callback to be called makes the calls script(i). If callbacks arm for
        later only, the loop ends, with or without a window; in a window it fires as the queue says. */
    method ProcessTimerEvents(script: nat -> seq<Call<Node>>, ghost base: int) returns (fired: Queue<Node>)
      requires Valid() && Known(script) && ArmsLater(ScriptAt(script, now), now)
      modifies tree, timers, tree.sentinel
      ensures Valid() && !Due(Contents(), now) && Fired(fired, old(Keys()), Keys(), now)
      ensures old(Windowed(script, base)) ==>
                Live(Contents(), base) && (fired, Contents()) == Drain(old(Contents()), now, ScriptAt(script, now), 0)
      ensures old(Windowed(script, base)) ==> Ordered(fired)
    {
      hide Valid, Live, Drain, Fired, Reached, DueTimers, Due;
      fired := [];
      var i: nat := 0;
      ghost var near, actions, keys := Windowed(script, base), ScriptAt(script, now), Keys();
      ghost var outcome := if near then Drain(Contents(), now, actions, 0) else ([], []);
      FiredNothing(keys, now);
      if near {
        ReachedFirst(Contents(), now, actions);
        FiredOrdered(Contents(), now, actions, 0);
      }
      while true
        invariant Valid() && Fired(fired, keys, Keys(), now)
        invariant near ==> AtPass(fired, outcome, actions, i, base)
        decreases |DueTimers(Keys(), now)|
      {
        var node;
        node, fired := NextPass(fired, keys, outcome, near, script, i, base);
        if node == null {
          break;
        }
        i := i + 1;
      }
      if near {
        ReachedLast(fired, Contents(), outcome, now, actions, i);
      }
    }

    /** Between two passes in a window. */
    ghost predicate AtPass(fired: Queue<Node>, outcome: (Queue<Node>, Queue<Node>), actions: nat -> seq<Action<Node>>,
                           i: nat, base: int)
      requires ArmsLater(actions, now)
      reads this, tree, tree.order
    {
      Live(Contents(), base) && Reached(fired, Contents(), outcome, now, actions, i)
    }

    /** One pass, with what it fires added to the record. */
    method NextPass(fired0: Queue<Node>, ghost keys: map<Node, Key>, ghost outcome: (Queue<Node>, Queue<Node>),
                    ghost near: bool, script: nat -> seq<Call<Node>>, i: nat, ghost base: int)
      returns (node: Node?, fired: Queue<Node>)
      requires Valid() && Known(script) && ArmsLater(ScriptAt(script, now), now) && Fired(fired0, keys, Keys(), now)
      requires near ==> ArmsInWindow(ScriptAt(script, now)(i), base)
      requires near ==> AtPass(fired0, outcome, ScriptAt(script, now), i, base)
      modifies tree, timers, tree.sentinel
      ensures Valid() && Fired(fired, keys, Keys(), now)
      ensures if node == null then !Due(Contents(), now) else |DueTimers(Keys(), now)| < old(|DueTimers(Keys(), now)|)
      ensures near ==> AtPass(fired, outcome, ScriptAt(script, now), if node == null then i else i + 1, base)
    {
      hide Valid, Live, KeyAfterAll, Drain, Fired, Reached, ActionsOf, ArmsInWindow;
      fired := fired0;
      ghost var actions, before := ScriptAt(script, now), Keys();
      if near && Due(Contents(), now) {
        ReachedNext(fired, Contents(), outcome, now, actions, i);
      }
      var key;
      node, key := Pass(script(i), base);
      if node != null {
        FiredNext(fired, keys, before, Keys(), node, actions(i), now);
        fired := fired + [Entry(node, key)];
      } else {
        assert Keys() == before;
      }
    }

    // ----- Runs -----

    method RunOp(op: Op) returns (node: Node?)
      requires Valid() && TimersOf(op) <= timers
      modifies `now, tree, timers, tree.sentinel
      ensures Valid() && timers == old(timers) && now == if op.Tick? then op.msec else old(now)
      ensures node != null <==> op.OnePass? && old(Due(Contents(), now))
      ensures node != null ==> node in timers && 0 < old(node.key) <= now && old(Contents())[0].timer == node
      ensures forall t :: t in timers ==> t.key == KeyAfterOp(old(t.key), t, old(now), op, node)
    {
      hide Valid, KeyAfterAll;
      node := null;
      match op
      case Tick(msec) => SetTime(msec);
      case Request(c) => RunCall(c, 0);
      case OnePass(calls) =>
        var key;
        node, key := Pass(calls, 0);
    }

    method SetTime(msec: Key)
      requires Valid()
      modifies `now
      ensures Valid() && now == msec
    {
      now := msec;
    }

    /** Any run whatever of set-timer, delete-timer and timer-loop steps, callbacks that arm due timers included:
        between steps a timer is in the tree exactly when its key is positive, its key is the one that the last
        step on it left, and a pass fires exactly when the first timer of the tree is due, and that one. */
    method RunOps(ops: seq<Op>) returns (fired: seq<Node?>, ghost queues: seq<Queue<Node>>)
      requires Valid() && forall j :: 0 <= j < |ops| ==> TimersOf(ops[j]) <= timers
      modifies `now, tree, timers, tree.sentinel
      ensures Valid() && timers == old(timers) && now == TimeAfter(old(now), ops)
      ensures FiresDue(old(Keys()), old(now), ops, fired, queues)
      ensures forall t :: t in timers ==> t.key == KeyAfterRun(old(t.key), t, old(now), ops, fired)
    {
      hide Valid, KeyAfterRun, KeyAfterOp, TimeAfter, FiresDue, Lists, Due;
      fired, queues := [], [];
      ghost var keys, now0 := Keys(), now;
      NothingRun(keys, now0, ops);
      for j := 0 to |ops|
        invariant Valid() && timers == old(timers) && now == TimeAfter(now0, ops[..j])
        invariant |fired| == j && FiresDue(keys, now0, ops[..j], fired, queues)
        invariant forall t :: t in timers ==> t.key == KeyAfterRun(keys[t], t, now0, ops[..j], fired)
      {
        ghost var q := Contents();
        ListsContents(keys, now0, ops[..j], fired);
        var node := RunOp(ops[j]);
        FiresNext(keys, now0, ops, fired, queues, node, q);
        forall t | t in timers
          ensures t.key == KeyAfterRun(keys[t], t, now0, ops[..j + 1], fired + [node])
        {
          RunNext(ops, j, fired, node, keys[t], t, now0);
        }
        TimeNext(now0, ops, j);
        fired, queues := fired + [node], queues + [q];
      }
      assert ops[..|ops|] == ops;
    }

    lemma ListsContents(keys: map<Node, Key>, now0: Key, ops: seq<Op>, fired: seq<Node?>)
      requires Valid() && keys.Keys == timers && |fired| == |ops|
      requires forall t :: t in timers ==> t.key == KeyAfterRun(keys[t], t, now0, ops, fired)
      ensures Lists(Contents(), keys, now0, ops, fired)
    {
      hide KeyAfterRun;
      var q := Contents();
      DistinctContents();
      LinkedOnce();
      forall i | 0 <= i < |q|
        ensures q[i].timer in keys && 0 < q[i].key == KeyAfterRun(keys[q[i].timer], q[i].timer, now0, ops, fired)
      {
        assert tree.order[i] in tree.nodes;
      }
      forall t | t in keys && KeyAfterRun(keys[t], t, now0, ops, fired) > 0
        ensures exists i {:trigger q[i]} :: 0 <= i < |q| && q[i].timer == t
      {
        var i :| 0 <= i < |tree.order| && tree.order[i] == t;
        assert q[i].timer == t;
      }
    }
  }

  lemma NothingRun(keys: map<Node, Key>, now: Key, ops: seq<Op>)
    ensures FiresDue(keys, now, ops[..0], [], []) && TimeAfter(now, ops[..0]) == now
    ensures forall t :: t in keys ==> keys[t] == KeyAfterRun(keys[t], t, now, ops[..0], [])
  {}

  lemma TimeNext(now: Key, ops: seq<Op>, j: nat)
    requires j < |ops|
    ensures TimeAfter(now, ops[..j + 1]) == if ops[j].Tick? then ops[j].msec else TimeAfter(now, ops[..j])
  {
    assert ops[..j + 1][..j] == ops[..j];
  }

  /** Every run from zeroed timers: afterwards a timer is in the tree, once, exactly when its key is positive. */
  method RunFromZero(sentinel: Node, zeroed: set<Node>, msec: Key, ops: seq<Op>)
    returns (loop: Loop, fired: seq<Node?>, ghost queues: seq<Queue<Node>>)
    requires sentinel !in zeroed && (forall t :: t in zeroed ==> t.key == 0)
    requires forall j :: 0 <= j < |ops| ==> TimersOf(ops[j]) <= zeroed
    modifies sentinel, zeroed
    ensures loop.Valid() && loop.timers == zeroed && |fired| == |ops|
    ensures forall t :: t in zeroed ==> (t.key > 0 <==> t in loop.tree.order)
    ensures forall i, j :: 0 <= i < j < |loop.tree.order| ==> loop.tree.order[i] != loop.tree.order[j]
    ensures forall t :: t in zeroed ==> t.key == KeyAfterRun(0, t, msec, ops, fired)
    ensures FiresDue(map t | t in zeroed :: 0, msec, ops, fired, queues) && loop.now == TimeAfter(msec, ops)
  {
    loop := new Loop(sentinel, msec);
    loop.Register(zeroed);
    assert loop.Keys() == map t | t in zeroed :: 0;
    fired, queues := loop.RunOps(ops);
    loop.LinkedOnce();
  }
}
