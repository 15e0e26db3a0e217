/** The timer queue as a sequence of (timer, key) pairs in firing order: what arming, cancelling
    and draining it means, apart from any tree. */
module TimerQueue {
  import opened RbTree

  datatype Entry<T> = Entry(timer: T, key: Key)

  /** What a callback may do to the queue. */
  datatype Action<T> = Cancel(timer: T) | Arm(timer: T, key: Key)

  type Queue<T> = seq<Entry<T>>

  ghost predicate Ordered<T>(q: Queue<T>) {
    forall i, j :: 0 <= i < j < |q| ==> q[i].key <= q[j].key
  }

  function Without<T(==)>(q: Queue<T>, t: T): (r: Queue<T>)
    ensures |r| <= |q|
  {
    if q == [] then []
    else if q[0].timer == t then Without(q[1..], t)
    else [q[0]] + Without(q[1..], t)
  }

  /** Puts e after the last entry whose key is not greater. */
  function Insert<T>(q: Queue<T>, e: Entry<T>): Queue<T> {
    if q == [] || e.key < q[0].key then [e] + q else [q[0]] + Insert(q[1..], e)
  }

  function Apply<T(==)>(q: Queue<T>, a: Action<T>): Queue<T> {
    match a
    case Cancel(t) => Without(q, t)
    case Arm(t, k) => if k == 0 then Without(q, t) else Insert(Without(q, t), Entry(t, k))
  }

  function ApplyAll<T(==)>(q: Queue<T>, actions: seq<Action<T>>): Queue<T>
    decreases |actions|
  {
    if actions == [] then q else ApplyAll(Apply(q, actions[0]), actions[1..])
  }

  /** The number of leading entries that are due. */
  function DueCount<T>(q: Queue<T>, now: Key): (d: nat)
    ensures d <= |q|
  {
    if q == [] || q[0].key > now then 0 else 1 + DueCount(q[1..], now)
  }

  // ----- A queue is its due part followed by its later part -----

  ghost predicate AllDue<T>(d: Queue<T>, now: Key) {
    forall i :: 0 <= i < |d| ==> d[i].key <= now
  }

  ghost predicate AllLater<T>(l: Queue<T>, now: Key) {
    forall i :: 0 <= i < |l| ==> l[i].key > now
  }

  ghost predicate Later<T>(a: Action<T>, now: Key) {
    a.Arm? ==> a.key > now
  }

  function WithoutAll<T(==)>(q: Queue<T>, actions: seq<Action<T>>): (r: Queue<T>)
    ensures |r| <= |q|
    decreases |actions|
  {
    if actions == [] then q else WithoutAll(Without(q, actions[0].timer), actions[1..])
  }

  lemma WithoutNone<T>(t: T)
    ensures Without([], t) == []
  {}

  lemma WithoutFirst<T>(q: Queue<T>, t: T)
    requires q != []
    ensures Without(q, t) == if q[0].timer == t then Without(q[1..], t) else [q[0]] + Without(q[1..], t)
  {}

  lemma {:induction false} WithoutSplit<T>(d: Queue<T>, l: Queue<T>, t: T)
    ensures Without(d + l, t) == Without(d, t) + Without(l, t)
  {
    hide Without;
    var w := Without(l, t);
    if d == [] {
      WithoutNone(t);
      assert d + l == l && [] + w == w;
    } else {
      var r := d[1..];
      WithoutSplit(r, l, t);
      WithoutFirst(d, t);
      WithoutFirst(d + l, t);
      assert (d + l)[0] == d[0] && (d + l)[1..] == r + l;
      var v := Without(r, t);
      assert [d[0]] + (v + w) == [d[0]] + v + w;
    }
  }

  lemma {:induction false} WithoutIn<T>(q: Queue<T>, t: T, e: Entry<T>)
    ensures e in Without(q, t) <==> e in q && e.timer != t
  {
    if q != [] {
      WithoutIn(q[1..], t, e);
      assert q == [q[0]] + q[1..];
    }
  }

  lemma {:induction false} WithoutOrdered<T>(q: Queue<T>, t: T)
    requires Ordered(q)
    ensures Ordered(Without(q, t))
  {
    if q != [] {
      WithoutOrdered(q[1..], t);
      var r := Without(q[1..], t);
      forall i | 0 <= i < |r| ensures q[0].key <= r[i].key {
        WithoutIn(q[1..], t, r[i]);
      }
    }
  }

  lemma {:induction false} InsertSplit<T>(d: Queue<T>, l: Queue<T>, e: Entry<T>, now: Key)
    requires AllDue(d, now) && e.key > now
    ensures Insert(d + l, e) == d + Insert(l, e)
  {
    if d == [] {
      assert d + l == l;
    } else {
      InsertSplit(d[1..], l, e, now);
      assert (d + l)[1..] == d[1..] + l;
    }
  }

  lemma {:induction false} InsertIn<T>(q: Queue<T>, e: Entry<T>, f: Entry<T>)
    ensures f in Insert(q, e) <==> f == e || f in q
  {
    if q != [] && e.key >= q[0].key {
      InsertIn(q[1..], e, f);
      assert q == [q[0]] + q[1..];
    }
  }

  lemma {:induction false} InsertOrdered<T>(q: Queue<T>, e: Entry<T>)
    requires Ordered(q)
    ensures Ordered(Insert(q, e))
  {
    if q != [] && e.key >= q[0].key {
      InsertOrdered(q[1..], e);
      var r := Insert(q[1..], e);
      forall i | 0 <= i < |r| ensures q[0].key <= r[i].key {
        InsertIn(q[1..], e, r[i]);
      }
    }
  }

  lemma ApplyOrdered<T>(q: Queue<T>, a: Action<T>)
    requires Ordered(q)
    ensures Ordered(Apply(q, a))
  {
    WithoutOrdered(q, a.timer);
    if a.Arm? {
      InsertOrdered(Without(q, a.timer), Entry(a.timer, a.key));
    }
  }

  lemma {:induction false} ApplyAllOrdered<T>(q: Queue<T>, actions: seq<Action<T>>)
    requires Ordered(q)
    ensures Ordered(ApplyAll(q, actions))
    decreases |actions|
  {
    if actions != [] {
      ApplyOrdered(q, actions[0]);
      ApplyAllOrdered(Apply(q, actions[0]), actions[1..]);
    }
  }

  lemma ApplySplit<T>(d: Queue<T>, l: Queue<T>, a: Action<T>, now: Key)
    requires AllDue(d, now) && AllLater(l, now) && Later(a, now)
    ensures Apply(d + l, a) == Without(d, a.timer) + Apply(l, a)
    ensures AllDue(Without(d, a.timer), now) && AllLater(Apply(l, a), now)
  {
    var t := a.timer;
    WithoutSplit(d, l, t);
    forall i | 0 <= i < |Without(d, t)| ensures Without(d, t)[i].key <= now {
      WithoutIn(d, t, Without(d, t)[i]);
    }
    forall i | 0 <= i < |Without(l, t)| ensures Without(l, t)[i].key > now {
      WithoutIn(l, t, Without(l, t)[i]);
    }
    if a.Arm? {
      var e := Entry(t, a.key);
      InsertSplit(Without(d, t), Without(l, t), e, now);
      var r := Insert(Without(l, t), e);
      forall i | 0 <= i < |r| ensures r[i].key > now {
        InsertIn(Without(l, t), e, r[i]);
      }
    }
  }

  lemma {:induction false} ApplyAllSplit<T>(d: Queue<T>, l: Queue<T>, actions: seq<Action<T>>, now: Key)
    requires AllDue(d, now) && AllLater(l, now) && forall j :: 0 <= j < |actions| ==> Later(actions[j], now)
    ensures ApplyAll(d + l, actions) == WithoutAll(d, actions) + ApplyAll(l, actions)
    ensures AllDue(WithoutAll(d, actions), now) && AllLater(ApplyAll(l, actions), now)
    decreases |actions|
  {
    if actions != [] {
      ApplySplit(d, l, actions[0], now);
      ApplyAllSplit(Without(d, actions[0].timer), Apply(l, actions[0]), actions[1..], now);
    }
  }

  lemma {:induction false} DueSplit<T>(q: Queue<T>, now: Key)
    requires Ordered(q)
    ensures var d := DueCount(q, now); AllDue(q[..d], now) && AllLater(q[d..], now)
  {
    if q != [] && q[0].key <= now {
      DueSplit(q[1..], now);
      var d := DueCount(q[1..], now);
      assert q[..d + 1] == [q[0]] + q[1..][..d] && q[d + 1..] == q[1..][d..];
    }
  }

  lemma {:induction false} DueCountSplit<T>(d: Queue<T>, l: Queue<T>, now: Key)
    requires AllDue(d, now) && AllLater(l, now)
    ensures DueCount(d + l, now) == |d|
  {
    if d == [] {
      assert d + l == l;
    } else {
      DueCountSplit(d[1..], l, now);
      assert (d + l)[1..] == d[1..] + l;
    }
  }

  /** A callback that arms for later only never adds a due entry. */
  lemma CallbackDue<T>(q: Queue<T>, actions: seq<Action<T>>, now: Key)
    requires Ordered(q) && forall j :: 0 <= j < |actions| ==> Later(actions[j], now)
    ensures DueCount(ApplyAll(q, actions), now) <= DueCount(q, now) && Ordered(ApplyAll(q, actions))
  {
    var k := DueCount(q, now);
    var d, l := q[..k], q[k..];
    DueSplit(q, now);
    assert q == d + l;
    ApplyAllSplit(d, l, actions, now);
    DueCountSplit(WithoutAll(d, actions), ApplyAll(l, actions), now);
    ApplyAllOrdered(q, actions);
  }

  // ----- The timer loop -----

  /** The callbacks of a run of the loop: the i-th one to be called does script(i). They cancel
      timers and arm timers for later than now. */
  ghost predicate ArmsLater<T>(script: nat -> seq<Action<T>>, now: Key) {
    forall i: nat, j :: 0 <= j < |script(i)| ==> Later(script(i)[j], now)
  }

  /** The timer loop: fires the first entry while it is due and runs its callback on the rest.
      The result is what was fired, in order, and what is left. It ends because every pass
      leaves fewer due entries. */
  ghost function Drain<T>(q: Queue<T>, now: Key, script: nat -> seq<Action<T>>, i: nat): (Queue<T>, Queue<T>)
    requires Ordered(q) && ArmsLater(script, now)
    decreases DueCount(q, now)
  {
    if q == [] || q[0].key > now then ([], q)
    else
      var (fired, left) := Drain(AfterFiring(q, now, script, i), now, script, i + 1);
      ([q[0]] + fired, left)
  }

  /** The queue once its due first entry was taken out and its callback was run. */
  ghost function AfterFiring<T>(q: Queue<T>, now: Key, script: nat -> seq<Action<T>>, i: nat): (r: Queue<T>)
    requires Ordered(q) && ArmsLater(script, now) && q != [] && q[0].key <= now
    ensures Ordered(r) && DueCount(r, now) < DueCount(q, now)
  {
    CallbackDue(q[1..], script(i), now);
    ApplyAll(q[1..], script(i))
  }

  ghost predicate Due<T>(q: Queue<T>, now: Key) {
    q != [] && q[0].key <= now
  }

  /** A run that is to end with the given outcome has come to its i-th callback, having fired
      the given entries and with q left in the queue. */
  ghost predicate Reached<T>(fired: Queue<T>, q: Queue<T>, outcome: (Queue<T>, Queue<T>), now: Key,
                             script: nat -> seq<Action<T>>, i: nat)
    requires ArmsLater(script, now)
  {
    Ordered(q) && var (more, left) := Drain(q, now, script, i); outcome == (fired + more, left)
  }

  lemma ReachedFirst<T>(q: Queue<T>, now: Key, script: nat -> seq<Action<T>>)
    requires Ordered(q) && ArmsLater(script, now)
    ensures Reached([], q, Drain(q, now, script, 0), now, script, 0)
  {
    assert [] + Drain(q, now, script, 0).0 == Drain(q, now, script, 0).0;
  }

  lemma ReachedNext<T>(fired: Queue<T>, q: Queue<T>, outcome: (Queue<T>, Queue<T>), now: Key,
                       script: nat -> seq<Action<T>>, i: nat)
    requires ArmsLater(script, now) && Reached(fired, q, outcome, now, script, i) && Due(q, now)
    ensures Reached(fired + [q[0]], AfterFiring(q, now, script, i), outcome, now, script, i + 1)
    ensures DueCount(AfterFiring(q, now, script, i), now) < DueCount(q, now)
  {
    var f := Drain(AfterFiring(q, now, script, i), now, script, i + 1).0;
    assert fired + ([q[0]] + f) == fired + [q[0]] + f;
  }

  lemma ReachedLast<T>(fired: Queue<T>, q: Queue<T>, outcome: (Queue<T>, Queue<T>), now: Key,
                       script: nat -> seq<Action<T>>, i: nat)
    requires ArmsLater(script, now) && Reached(fired, q, outcome, now, script, i) && !Due(q, now)
    ensures (fired, q) == outcome
  {
    assert fired + [] == fired;
  }

  /** What the due entries d alone determine: each fires unless a callback before it touched its timer. */
  ghost function FireDue<T>(d: Queue<T>, script: nat -> seq<Action<T>>, i: nat): (fired: Queue<T>)
    ensures |fired| <= |d|
    decreases |d|
  {
    if d == [] then [] else [d[0]] + FireDue(WithoutAll(d[1..], script(i)), script, i + 1)
  }

  /** What n callbacks make of the entries l that are not due. */
  ghost function RunCallbacks<T>(l: Queue<T>, script: nat -> seq<Action<T>>, i: nat, n: nat): Queue<T>
    decreases n
  {
    if n == 0 then l else RunCallbacks(ApplyAll(l, script(i)), script, i + 1, n - 1)
  }

  /** The loop fires from the due entries alone, whatever is armed meanwhile, and treats the
      others as if only the callbacks had run. */
  lemma {:induction false} DrainSplit<T>(d: Queue<T>, l: Queue<T>, now: Key, script: nat -> seq<Action<T>>, i: nat)
    requires Ordered(d + l) && AllDue(d, now) && AllLater(l, now) && ArmsLater(script, now)
    ensures Drain(d + l, now, script, i) == (FireDue(d, script, i), RunCallbacks(l, script, i, |FireDue(d, script, i)|))
    ensures AllLater(Drain(d + l, now, script, i).1, now)
    decreases |d|
  {
    if d == [] {
      assert d + l == l;
    } else {
      var q := d + l;
      assert q[0] == d[0] && q[1..] == d[1..] + l;
      ApplyAllSplit(d[1..], l, script(i), now);
      assert AfterFiring(q, now, script, i) == WithoutAll(d[1..], script(i)) + ApplyAll(l, script(i));
      DrainSplit(WithoutAll(d[1..], script(i)), ApplyAll(l, script(i)), now, script, i + 1);
    }
  }

  /** The timer loop leaves only entries that are not due. */
  lemma DrainLeavesLater<T>(q: Queue<T>, now: Key, script: nat -> seq<Action<T>>, i: nat)
    requires Ordered(q) && ArmsLater(script, now)
    ensures AllLater(Drain(q, now, script, i).1, now)
    ensures Drain(q, now, script, i).0 == FireDue(q[..DueCount(q, now)], script, i)
  {
    var k := DueCount(q, now);
    DueSplit(q, now);
    assert q == q[..k] + q[k..];
    DrainSplit(q[..k], q[k..], now, script, i);
  }

  // ----- Single entries -----

  ghost predicate DistinctTimers<T>(q: Queue<T>) {
    forall i, j :: 0 <= i < j < |q| ==> q[i].timer != q[j].timer
  }

  lemma {:induction false} WithoutAbsent<T>(q: Queue<T>, t: T)
    requires forall i :: 0 <= i < |q| ==> q[i].timer != t
    ensures Without(q, t) == q
  {
    if q != [] {
      WithoutAbsent(q[1..], t);
    }
  }

  lemma {:induction false} WithoutAt<T>(q: Queue<T>, p: nat)
    requires p < |q| && DistinctTimers(q)
    ensures Without(q, q[p].timer) == q[..p] + q[p + 1..]
  {
    if p == 0 {
      WithoutAbsent(q[1..], q[0].timer);
    } else {
      WithoutAt(q[1..], p - 1);
      assert q[1..][..p - 1] == q[1..p] && q[1..][p..] == q[p + 1..];
    }
  }

  lemma {:induction false} InsertAt<T>(q: Queue<T>, e: Entry<T>, r: nat)
    requires r <= |q| && (forall i :: 0 <= i < r ==> q[i].key <= e.key) && (r < |q| ==> e.key < q[r].key)
    ensures Insert(q, e) == q[..r] + [e] + q[r..]
  {
    if r > 0 {
      InsertAt(q[1..], e, r - 1);
      assert q[1..][..r - 1] == q[1..r] && q[1..][r - 1..] == q[r..];
    }
  }

  // ----- What is fired -----

  ghost predicate Touches<T>(actions: seq<Action<T>>, t: T) {
    exists j :: 0 <= j < |actions| && actions[j].timer == t
  }

  lemma {:induction false} WithoutAllIn<T>(q: Queue<T>, actions: seq<Action<T>>, e: Entry<T>)
    ensures e in WithoutAll(q, actions) <==> e in q && !Touches(actions, e.timer)
    decreases |actions|
  {
    if actions != [] {
      var r := Without(q, actions[0].timer);
      WithoutIn(q, actions[0].timer, e);
      WithoutAllIn(r, actions[1..], e);
      if Touches(actions, e.timer) && actions[0].timer != e.timer {
        var j :| 0 <= j < |actions| && actions[j].timer == e.timer;
        assert actions[1..][j - 1].timer == e.timer;
      }
    }
  }

  ghost predicate TouchedBy<T>(script: nat -> seq<Action<T>>, k: nat, t: T) {
    Touches(script(k), t)
  }

  /** No callback from the first-th up to, but not including, the last-th one touches t. */
  ghost predicate Untouched<T>(script: nat -> seq<Action<T>>, first: nat, last: nat, t: T) {
    forall k: nat {:trigger TouchedBy(script, k, t)} :: first <= k < last ==> !TouchedBy(script, k, t)
  }

  /** Nothing fires that was not due, no timer fires after a callback cancelled or re-armed it,
      and every due entry fires unless that happened to it. */
  lemma {:induction false} FiredExactly<T>(d: Queue<T>, script: nat -> seq<Action<T>>, i: nat, e: Entry<T>)
    ensures forall m :: 0 <= m < |FireDue(d, script, i)| && FireDue(d, script, i)[m] == e ==>
      e in d && Untouched(script, i, i + m, e.timer)
    ensures e in d && Untouched(script, i, i + |FireDue(d, script, i)|, e.timer) ==> e in FireDue(d, script, i)
    decreases |d|
  {
    if d != [] {
      var rest := WithoutAll(d[1..], script(i));
      var fired := FireDue(rest, script, i + 1);
      WithoutAllIn(d[1..], script(i), e);
      FiredExactly(rest, script, i + 1, e);
      assert FireDue(d, script, i) == [d[0]] + fired && d == [d[0]] + d[1..];
      assert TouchedBy(script, i, e.timer) <==> Touches(script(i), e.timer);
      forall m | 0 <= m < |fired| && fired[m] == e ensures e in d && Untouched(script, i, i + m + 1, e.timer) {
        assert e in fired && e in rest;
      }
    }
  }

  /** Timers fire in non-decreasing key order; ties keep the order of the queue, which is that
      of arming: what fires is a subsequence of what was due. */
  ghost predicate Subsequence<T>(a: seq<T>, b: seq<T>)
    decreases |b|
  {
    if a == [] then true
    else if b == [] then false
    else if a[0] == b[0] && Subsequence(a[1..], b[1..]) then true
    else Subsequence(a, b[1..])
  }

  lemma {:induction false} SubsequenceTrans<T>(a: seq<T>, b: seq<T>, c: seq<T>)
    requires Subsequence(a, b) && Subsequence(b, c)
    ensures Subsequence(a, c)
    decreases |c|
  {
    if a != [] {
      if b[0] == c[0] && Subsequence(b[1..], c[1..]) {
        if a[0] == b[0] && Subsequence(a[1..], b[1..]) {
          SubsequenceTrans(a[1..], b[1..], c[1..]);
        } else {
          SubsequenceTrans(a, b[1..], c[1..]);
        }
      } else {
        SubsequenceTrans(a, b, c[1..]);
      }
    }
  }

  lemma {:induction false} WithoutSubsequence<T>(q: Queue<T>, t: T)
    ensures Subsequence(Without(q, t), q)
  {
    if q != [] {
      WithoutSubsequence(q[1..], t);
    }
  }

  lemma {:induction false} SubsequenceSelf<T>(a: seq<T>)
    ensures Subsequence(a, a)
  {
    if a != [] {
      SubsequenceSelf(a[1..]);
    }
  }

  lemma {:induction false} WithoutAllSubsequence<T>(q: Queue<T>, actions: seq<Action<T>>)
    ensures Subsequence(WithoutAll(q, actions), q)
    decreases |actions|
  {
    if actions == [] {
      SubsequenceSelf(q);
    } else {
      var r := Without(q, actions[0].timer);
      WithoutSubsequence(q, actions[0].timer);
      WithoutAllSubsequence(r, actions[1..]);
      SubsequenceTrans(WithoutAll(r, actions[1..]), r, q);
    }
  }

  lemma {:induction false} FiredInOrder<T>(d: Queue<T>, script: nat -> seq<Action<T>>, i: nat)
    ensures Subsequence(FireDue(d, script, i), d)
    decreases |d|
  {
    if d != [] {
      var rest := WithoutAll(d[1..], script(i));
      FiredInOrder(rest, script, i + 1);
      WithoutAllSubsequence(d[1..], script(i));
      SubsequenceTrans(FireDue(rest, script, i + 1), rest, d[1..]);
    }
  }

  lemma {:induction false} SubsequenceIn<T>(a: seq<T>, b: seq<T>)
    requires Subsequence(a, b)
    ensures forall x :: x in a ==> x in b
    decreases |b|
  {
    if a != [] {
      assert a == [a[0]] + a[1..] && b == [b[0]] + b[1..];
      if a[0] == b[0] && Subsequence(a[1..], b[1..]) {
        SubsequenceIn(a[1..], b[1..]);
      } else {
        SubsequenceIn(a, b[1..]);
      }
    }
  }

  lemma {:induction false} SubsequenceOrdered<T>(a: Queue<T>, b: Queue<T>)
    requires Subsequence(a, b) && Ordered(b)
    ensures Ordered(a)
    decreases |b|
  {
    if a != [] {
      assert Ordered(b[1..]);
      if a[0] == b[0] && Subsequence(a[1..], b[1..]) {
        SubsequenceOrdered(a[1..], b[1..]);
        SubsequenceIn(a[1..], b[1..]);
        forall i, j | 0 <= i < j < |a|
          ensures a[i].key <= a[j].key
        {
          assert a[j] == a[1..][j - 1] && a[j] in b[1..];
          assert i > 0 ==> a[i] == a[1..][i - 1];
        }
      } else {
        SubsequenceOrdered(a, b[1..]);
      }
    }
  }

  /** The timer loop fires in key order. */
  lemma FiredOrdered<T>(q: Queue<T>, now: Key, script: nat -> seq<Action<T>>, i: nat)
    requires Ordered(q) && ArmsLater(script, now)
    ensures Ordered(Drain(q, now, script, i).0)
  {
    var d := q[..DueCount(q, now)];
    DrainLeavesLater(q, now, script, i);
    FiredInOrder(d, script, i);
    SubsequenceOrdered(FireDue(d, script, i), d);
  }

  // ----- Callbacks that arm due timers -----

  /** The queue after n passes of a loop whose callbacks all perform these actions. */
  function Passes<T(==)>(q: Queue<T>, now: Key, actions: seq<Action<T>>, n: nat): Queue<T> {
    if n == 0 then q
    else
      var r := Passes(q, now, actions, n - 1);
      if r != [] && r[0].key <= now then ApplyAll(r[1..], actions) else r
  }

  /** A timer whose callback arms it for the current time keeps the loop running for ever: after any number
      of passes it is due again. */
  lemma {:induction false} NeverEnds<T>(t: T, k: Key, now: Key, n: nat)
    requires 0 < k <= now
    ensures var q := Passes([Entry(t, k)], now, [Arm(t, now)], n); |q| == 1 && q[0].timer == t && Due(q, now)
  {
    if n > 0 {
      NeverEnds(t, k, now, n - 1);
      var q := Passes([Entry(t, k)], now, [Arm(t, now)], n - 1);
      assert q[1..] == [];
      assert [Arm(t, now)][1..] == [];
      assert Apply([], Arm(t, now)) == [Entry(t, now)];
      assert ApplyAll([Entry(t, now)], []) == [Entry(t, now)];
    }
  }
}
