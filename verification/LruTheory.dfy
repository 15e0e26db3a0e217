/** What an LRU cache (cc_util/cc_lru.c) keeps over a whole trace of requests. */
module LruTheory {
  import opened Sequences
  import opened CacheNode
  import opened HashTable

  /** The place of the key in s, or -1. */
  function Place(s: seq<Key>, same: Compare, key: Key): (k: int)
    ensures -1 <= k < |s|
    ensures k >= 0 ==> same(s[k], key)
    ensures k < 0 ==> forall i :: 0 <= i < |s| ==> !same(s[i], key)
  {
    if s == [] then -1
    else if same(s[|s| - 1], key) then |s| - 1
    else Place(s[..|s| - 1], same, key)
  }

  /** Used now: moved to the end, or put there. */
  function Touch(s: seq<Key>, same: Compare, key: Key): seq<Key> {
    var k := Place(s, same, key);
    if k < 0 then s + [key] else WithoutAt(s, k) + [s[k]]
  }

  /** A request at capacity c: a lookup and, on a miss, an insert. Least recently used key first. */
  function Request(s: seq<Key>, same: Compare, c: nat, key: Key): seq<Key> {
    if Place(s, same, key) >= 0 then Touch(s, same, key)
    else (if |s| >= c && s != [] then s[1..] else s) + [key]
  }

  /** All keys requested so far, in the order of their last request. */
  function Recent(trace: seq<Key>, same: Compare): seq<Key> {
    if trace == [] then [] else Touch(Recent(Front(trace), same), same, Last(trace))
  }

  /** What a cache of capacity c holds after a trace of requests. */
  function Contents(trace: seq<Key>, same: Compare, c: nat): seq<Key> {
    if trace == [] then [] else Request(Contents(Front(trace), same, c), same, c, Last(trace))
  }

  ghost predicate Equivalence(same: Compare) {
    && (forall k :: same(k, k))
    && (forall k, l :: same(k, l) ==> same(l, k))
    && (forall k, l, m :: same(k, l) && same(l, m) ==> same(k, m))
  }

  ghost predicate Apart(s: seq<Key>, same: Compare) {
    forall i, j :: 0 <= i < j < |s| ==> !same(s[i], s[j])
  }

  /** The same keys in the same order, whichever spelling of a key came first. */
  ghost predicate Alike(s: seq<Key>, t: seq<Key>, same: Compare) {
    |s| == |t| && forall i :: 0 <= i < |s| ==> same(s[i], t[i])
  }

  /** The last c keys. */
  function Newer(s: seq<Key>, c: nat): seq<Key> { if |s| <= c then s else s[|s| - c..] }

  lemma Self(same: Compare, k: Key)
    requires Equivalence(same)
    ensures same(k, k)
  {}

  lemma Flip(same: Compare, k: Key, l: Key)
    requires Equivalence(same)
    ensures same(k, l) == same(l, k)
  {}

  lemma Chain(same: Compare, k: Key, l: Key, m: Key)
    requires Equivalence(same) && same(k, l)
    ensures same(k, m) == same(l, m)
  {
    Flip(same, k, l);
  }

  /** Where a key of the newest c stands among all. */
  lemma NewerAt(r: seq<Key>, c: nat, i: nat)
    requires i < |Newer(r, c)|
    ensures |Newer(r, c)| == (if |r| <= c then |r| else c) && Newer(r, c)[i] == r[|r| - |Newer(r, c)| + i]
  {}

  lemma AlikeAt(a: seq<Key>, r: seq<Key>, same: Compare, c: nat, i: nat, key: Key)
    requires Equivalence(same) && Alike(a, Newer(r, c), same) && i < |a|
    ensures |a| <= |r| && same(a[i], r[|r| - |a| + i]) && same(a[i], key) == same(r[|r| - |a| + i], key)
  {
    hide Equivalence, Newer;
    NewerAt(r, c, i);
    Chain(same, a[i], r[|r| - |a| + i], key);
  }

  /** The touched sequence, place by place. */
  function TouchedPlace(n: nat, k: nat, m: nat): nat
    requires k < n && m < n
  {
    if m < k then m else if m < n - 1 then m + 1 else k
  }

  lemma TouchAt(s: seq<Key>, same: Compare, key: Key, m: nat)
    requires Place(s, same, key) >= 0 && m < |s|
    ensures |Touch(s, same, key)| == |s|
    ensures Touch(s, same, key)[m] == s[TouchedPlace(|s|, Place(s, same, key), m)]
  {
    hide Place;
  }

  // ----- Keys stay apart -----

  lemma PlaceUnique(s: seq<Key>, same: Compare, key: Key, i: nat)
    requires Equivalence(same) && Apart(s, same) && i < |s| && same(s[i], key)
    ensures Place(s, same, key) == i
  {
    hide Place, Equivalence;
    var k := Place(s, same, key);
    Flip(same, s[i], key);
    if k >= 0 {
      Chain(same, s[k], key, s[i]);
      Flip(same, s[k], s[i]);
    }
  }

  lemma TouchApart(s: seq<Key>, same: Compare, key: Key)
    requires Equivalence(same) && Apart(s, same)
    ensures Apart(Touch(s, same, key), same)
  {
    hide Place, Touch, Equivalence;
    var t, k := Touch(s, same, key), Place(s, same, key);
    TouchNew(s, same, key);
    if k >= 0 {
      forall i, j | 0 <= i < j < |t|
        ensures !same(t[i], t[j])
      {
        TouchAt(s, same, key, i);
        TouchAt(s, same, key, j);
        var x, y := TouchedPlace(|s|, k, i), TouchedPlace(|s|, k, j);
        Flip(same, s[x], s[y]);
      }
    }
  }

  lemma TouchNew(s: seq<Key>, same: Compare, key: Key)
    ensures Place(s, same, key) < 0 ==> Touch(s, same, key) == s + [key]
    ensures Place(s, same, key) >= 0 ==> |Touch(s, same, key)| == |s|
  {
    hide Place;
  }

  lemma {:induction false} RecentApart(trace: seq<Key>, same: Compare)
    requires Equivalence(same)
    ensures Apart(Recent(trace, same), same)
    decreases |trace|
  {
    hide Touch, Apart, Equivalence;
    if trace == [] {
      NoneApart(same);
    } else {
      RecentApart(Front(trace), same);
      TouchApart(Recent(Front(trace), same), same, Last(trace));
    }
  }

  lemma NoneApart(same: Compare)
    ensures Apart([], same)
  {}

  // ----- The cache holds the most recent keys -----

  /** A hit in the cache is a hit among the newer keys, at the same distance from the end. */
  lemma HitPlace(a: seq<Key>, r: seq<Key>, same: Compare, c: nat, key: Key)
    requires Equivalence(same) && Apart(r, same) && Alike(a, Newer(r, c), same) && Place(a, same, key) >= 0
    ensures |a| <= |r| && Place(r, same, key) == |r| - |a| + Place(a, same, key)
    ensures |Newer(r, c)| == |a|
  {
    hide Place, Equivalence, Apart;
    AlikeAt(a, r, same, c, Place(a, same, key), key);
    PlaceUnique(r, same, key, |r| - |a| + Place(a, same, key));
  }

  lemma NewerLength(r: seq<Key>, t: seq<Key>, c: nat)
    ensures |r| == |t| ==> |Newer(r, c)| == |Newer(t, c)|
    ensures |Newer(r, c)| == if |r| <= c then |r| else c
  {}

  lemma HitStep(a: seq<Key>, r: seq<Key>, same: Compare, c: nat, key: Key)
    requires Equivalence(same) && Apart(r, same) && Alike(a, Newer(r, c), same) && Place(a, same, key) >= 0
    ensures Alike(Request(a, same, c, key), Newer(Touch(r, same, key), c), same)
  {
    hide Place, Equivalence, Apart, Newer, Touch;
    HitPlace(a, r, same, c, key);
    var t, k := Touch(r, same, key), Place(a, same, key);
    TouchNew(a, same, key);
    TouchNew(r, same, key);
    NewerLength(r, t, c);
    forall m | 0 <= m < |a|
      ensures same(Touch(a, same, key)[m], Newer(t, c)[m])
    {
      NewerAt(t, c, m);
      TouchAt(a, same, key, m);
      TouchAt(r, same, key, |r| - |a| + m);
      AlikeAt(a, r, same, c, TouchedPlace(|a|, k, m), key);
    }
  }

  /** A key missed by the cache was requested longer ago than all that the cache holds. */
  lemma MissPlace(a: seq<Key>, r: seq<Key>, same: Compare, c: nat, key: Key)
    requires Equivalence(same) && Alike(a, Newer(r, c), same) && Place(a, same, key) < 0
    ensures |a| <= |r| && Place(r, same, key) < |r| - |a| && |a| == |Newer(r, c)|
  {
    hide Place, Equivalence, Newer, Alike;
    AlikeLength(a, r, same, c);
    var j, off := Place(r, same, key), |r| - |a|;
    if j >= off {
      AlikeAt(a, r, same, c, j - off, key);
    }
  }

  lemma AlikeLength(a: seq<Key>, r: seq<Key>, same: Compare, c: nat)
    requires Alike(a, Newer(r, c), same)
    ensures |a| == |Newer(r, c)| == if |r| <= c then |r| else c
  {}

  /** Touching a key that stands before n, or nowhere, leaves the tail from n in front of it. */
  lemma MissTail(s: seq<Key>, same: Compare, key: Key, n: nat)
    requires Equivalence(same) && Place(s, same, key) < n <= |s|
    ensures var t := Touch(s, same, key);
      |t| >= |s| && |t| > |s| - n && same(key, t[|t| - 1]) && (n < |s| ==> t[|t| - 1 - |s| + n] == s[n])
    ensures |Touch(s, same, key)| == if Place(s, same, key) < 0 then |s| + 1 else |s|
  {
    hide Place, Equivalence;
    var k := Place(s, same, key);
    Self(same, key);
    if k >= 0 {
      Flip(same, s[k], key);
      TouchAt(s, same, key, |s| - 1);
      if n < |s| {
        TouchAt(s, same, key, n - 1);
      }
    }
  }

  /** q is the last part of s with key behind it. */
  lemma MissAlike(q: seq<Key>, s: seq<Key>, r: seq<Key>, same: Compare, key: Key, c: nat)
    requires Equivalence(same) && |q| <= |r| && Place(r, same, key) < |r| - |q|
    requires forall m :: 0 <= m < |q| ==> same(q[m], r[|r| - |q| + m])
    requires s == q + [key] && |Newer(Touch(r, same, key), c)| == |s|
    ensures Alike(s, Newer(Touch(r, same, key), c), same)
  {
    hide Place, Equivalence, Newer, Touch;
    var t := Touch(r, same, key);
    MissTail(r, same, key, |r| - |q|);
    forall m | 0 <= m < |s|
      ensures same(s[m], Newer(t, c)[m])
    {
      NewerAt(t, c, m);
      if m < |q| {
        MissTail(r, same, key, |r| - |q| + m);
      }
    }
  }

  /** A miss in the cache, whether or not the key was requested before. */
  lemma MissStep(a: seq<Key>, r: seq<Key>, same: Compare, c: nat, key: Key)
    requires Equivalence(same) && Alike(a, Newer(r, c), same) && Place(a, same, key) < 0 && c >= 1
    ensures Alike(Request(a, same, c, key), Newer(Touch(r, same, key), c), same)
  {
    hide Place, Equivalence, Newer, Touch, Alike;
    AlikeLength(a, r, same, c);
    MissPlace(a, r, same, c, key);
    MissTail(r, same, key, |r| - |a|);
    var t := Touch(r, same, key);
    NewerLength(t, t, c);
    var q := if |a| >= c then a[1..] else a;
    forall m | 0 <= m < |q|
      ensures same(q[m], r[|r| - |q| + m])
    {
      AlikeAt(a, r, same, c, m + (|a| - |q|), key);
    }
    MissAlike(q, q + [key], r, same, key, c);
  }

  /** After every trace, a cache of capacity c holds exactly the min(c, distinct) most recently
      requested keys, in the order of their last request. */
  lemma {:induction false} HoldsMostRecent(trace: seq<Key>, same: Compare, c: nat)
    requires Equivalence(same) && c >= 1
    ensures Alike(Contents(trace, same, c), Newer(Recent(trace, same), c), same)
    decreases |trace|
  {
    hide Touch, Request, Alike, Equivalence, Newer, Place, Apart;
    if trace == [] {
      NothingAlike(same, c);
    } else {
      var a, r := Contents(Front(trace), same, c), Recent(Front(trace), same);
      HoldsMostRecent(Front(trace), same, c);
      RecentApart(Front(trace), same);
      if Place(a, same, Last(trace)) >= 0 {
        HitStep(a, r, same, c, Last(trace));
      } else {
        MissStep(a, r, same, c, Last(trace));
      }
    }
  }

  lemma NothingAlike(same: Compare, c: nat)
    ensures Alike([], Newer([], c), same)
  {}

  lemma PartOf(a: seq<Key>, b: seq<Key>, r: seq<Key>, same: Compare, c: nat, d: nat)
    requires Equivalence(same) && c <= d && Alike(a, Newer(r, c), same) && Alike(b, Newer(r, d), same)
    ensures Alike(a, Newer(b, c), same)
  {
    hide Equivalence, Newer;
    AlikeLength(a, r, same, c);
    AlikeLength(b, r, same, d);
    NewerLength(b, b, c);
    forall i | 0 <= i < |a|
      ensures same(a[i], Newer(b, c)[i])
    {
      var x, y := r[|r| - |a| + i], b[|b| - |a| + i];
      NewerAt(b, c, i);
      AlikeAt(b, r, same, d, |b| - |a| + i, y);
      AlikeAt(a, r, same, c, i, y);
      Flip(same, x, y);
    }
  }

  /** A smaller cache holds the newest part of what a larger one holds. */
  lemma SmallerIsPart(trace: seq<Key>, same: Compare, c: nat, d: nat)
    requires Equivalence(same) && 1 <= c <= d
    ensures Alike(Contents(trace, same, c), Newer(Contents(trace, same, d), c), same)
  {
    hide Equivalence, Alike, Newer, Contents, Recent;
    HoldsMostRecent(trace, same, c);
    HoldsMostRecent(trace, same, d);
    PartOf(Contents(trace, same, c), Contents(trace, same, d), Recent(trace, same), same, c, d);
  }

  /** Every hit of a smaller cache is a hit of a larger one. */
  lemma HitsGrow(trace: seq<Key>, same: Compare, c: nat, d: nat, key: Key)
    requires Equivalence(same) && 1 <= c <= d && Place(Contents(trace, same, c), same, key) >= 0
    ensures Place(Contents(trace, same, d), same, key) >= 0
  {
    hide Contents, Place, Alike, Newer, Equivalence;
    SmallerIsPart(trace, same, c, d);
    var a, b := Contents(trace, same, c), Contents(trace, same, d);
    AlikeAt(a, b, same, c, Place(a, same, key), key);
  }

  // ----- Stack distance -----

  /** The key stands m places before the last one. */
  ghost predicate StandsAt(r: seq<Key>, same: Compare, m: nat, key: Key) {
    m < |r| && same(r[|r| - 1 - m], key)
  }

  /** One more request x for another key: the key moves down if and only if x is new among the newest m. */
  lemma StandsStep(r: seq<Key>, q: seq<Key>, same: Compare, key: Key, x: Key)
    requires Equivalence(same) && Apart(r, same) && StandsAt(r, same, |q|, key) && !same(x, key)
    requires Alike(q, Newer(r, |q|), same)
    ensures StandsAt(Touch(r, same, x), same, |Touch(q, same, x)|, key)
    ensures Alike(Touch(q, same, x), Newer(Touch(r, same, x), |Touch(q, same, x)|), same)
  {
    hide Place, Alike, Apart, Newer, Equivalence, StandsAt, Touch;
    if Place(q, same, x) >= 0 {
      HitStands(r, q, same, key, x);
    } else {
      MissStands(r, q, same, key, x);
    }
  }

  lemma HitStands(r: seq<Key>, q: seq<Key>, same: Compare, key: Key, x: Key)
    requires Equivalence(same) && Apart(r, same) && StandsAt(r, same, |q|, key)
    requires Alike(q, Newer(r, |q|), same) && Place(q, same, x) >= 0
    ensures StandsAt(Touch(r, same, x), same, |Touch(q, same, x)|, key)
    ensures Alike(Touch(q, same, x), Newer(Touch(r, same, x), |Touch(q, same, x)|), same)
  {
    hide Place, Apart, Touch, Alike, Newer, Equivalence;
    HitPlace(q, r, same, |q|, x);
    HitStep(q, r, same, |q|, x);
    TouchNew(q, same, x);
    TouchAt(r, same, x, |r| - 1 - |q|);
  }

  lemma MissStands(r: seq<Key>, q: seq<Key>, same: Compare, key: Key, x: Key)
    requires Equivalence(same) && StandsAt(r, same, |q|, key) && !same(x, key)
    requires Alike(q, Newer(r, |q|), same) && Place(q, same, x) < 0
    ensures StandsAt(Touch(r, same, x), same, |Touch(q, same, x)|, key)
    ensures Alike(Touch(q, same, x), Newer(Touch(r, same, x), |Touch(q, same, x)|), same)
  {
    hide Place, Touch, Alike, Newer, Equivalence;
    var j, off, t := Place(r, same, x), |r| - |q|, Touch(r, same, x);
    MissPlace(q, r, same, |q|, x);
    if j >= 0 {
      Flip(same, r[j], x);
      Chain(same, x, r[j], key);
    }
    assert j < off - 1;
    MissTail(r, same, x, off - 1);
    TouchNew(q, same, x);
    NewerLength(t, t, |q| + 1);
    forall m | 0 <= m < |q|
      ensures same(q[m], r[|r| - |q| + m])
    {
      AlikeAt(q, r, same, |q|, m, key);
    }
    MissAlike(q, q + [x], r, same, x, |q| + 1);
  }

  /** After a request of key and then requests u of other keys, key stands behind as many keys as u has
      distinct ones. */
  lemma {:induction false} Depth(v: seq<Key>, key: Key, u: seq<Key>, same: Compare)
    requires Equivalence(same) && forall i :: 0 <= i < |u| ==> !same(u[i], key)
    ensures StandsAt(Recent(v + [key] + u, same), same, |Recent(u, same)|, key)
    ensures Alike(Recent(u, same), Newer(Recent(v + [key] + u, same), |Recent(u, same)|), same)
    decreases |u|
  {
    hide Place, Alike, Apart, Newer, Touch, StandsAt, Equivalence;
    if u == [] {
      assert v + [key] + u == v + [key] && Front(v + [key]) == v;
      DepthStarts(Recent(v, same), same, key);
    } else {
      Depth(v, key, Front(u), same);
      RecentApart(v + [key] + Front(u), same);
      assert Front(v + [key] + u) == v + [key] + Front(u) && Last(v + [key] + u) == Last(u);
      assert Last(u) == u[|u| - 1];
      StandsStep(Recent(v + [key] + Front(u), same), Recent(Front(u), same), same, key, Last(u));
    }
  }

  lemma DepthStarts(r: seq<Key>, same: Compare, key: Key)
    requires Equivalence(same)
    ensures StandsAt(Touch(r, same, key), same, 0, key)
    ensures Alike([], Newer(Touch(r, same, key), 0), same)
  {
    hide Place, Touch, Equivalence;
    MissTail(r, same, key, |r|);
    var t := Touch(r, same, key);
    Flip(same, key, t[|t| - 1]);
  }

  /** A key requested before is a hit if and only if fewer than c distinct keys were requested since. */
  lemma HitIffFewSince(v: seq<Key>, key: Key, u: seq<Key>, same: Compare, c: nat)
    requires Equivalence(same) && c >= 1 && forall i :: 0 <= i < |u| ==> !same(u[i], key)
    ensures Place(Contents(v + [key] + u, same, c), same, key) >= 0 <==> |Recent(u, same)| < c
  {
    hide Contents, Recent, Alike, Newer, Apart, Equivalence, StandsAt, Place;
    var a, r, m := Contents(v + [key] + u, same, c), Recent(v + [key] + u, same), |Recent(u, same)|;
    HoldsMostRecent(v + [key] + u, same, c);
    RecentApart(v + [key] + u, same);
    Depth(v, key, u, same);
    InNewer(a, r, same, c, key, m);
  }

  lemma InNewer(a: seq<Key>, r: seq<Key>, same: Compare, c: nat, key: Key, m: nat)
    requires Equivalence(same) && Apart(r, same) && Alike(a, Newer(r, c), same) && StandsAt(r, same, m, key)
    ensures Place(a, same, key) >= 0 <==> m < c
  {
    hide Place, Alike, Newer, Equivalence, Apart;
    AlikeLength(a, r, same, c);
    var i, p := Place(a, same, key), |r| - 1 - m;
    if i >= 0 {
      AlikeAt(a, r, same, c, i, key);
      PlaceUnique(r, same, key, p);
      PlaceUnique(r, same, key, |r| - |a| + i);
    } else if m < c {
      AlikeAt(a, r, same, c, p - (|r| - |a|), key);
    }
  }
}
