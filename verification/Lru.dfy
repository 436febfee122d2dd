/** A bounded least-recently-used cache as a sequence of entries, most recently used first. */
module Lru {
  import opened Core

  function Find<K(==, !new), V(!new)>(c: seq<(K, V)>, k: K): (v: Option<V>)
    ensures v.Some? ==> (k, v.value) in c
    ensures v.None? ==> forall e :: e in c ==> e.0 != k
  {
    if c == [] then None else if c[0].0 == k then Some(c[0].1) else Find(c[1..], k)
  }

  /** The entries for other keys, in order (`pop`). */
  function Without<K(==, !new), V(!new)>(c: seq<(K, V)>, k: K): (r: seq<(K, V)>)
    ensures |r| <= |c|
  {
    if c == [] then [] else if c[0].0 == k then Without(c[1..], k) else [c[0]] + Without(c[1..], k)
  }

  lemma {:induction false} WithoutMembers<K(!new), V(!new)>(c: seq<(K, V)>, k: K)
    ensures forall e :: e in Without(c, k) <==> e in c && e.0 != k
  {
    if c == [] {
    } else {
      WithoutMembers(c[1..], k);
    }
  }

  /** `get`: a hit moves the entry to the front. */
  function Touch<K(==, !new), V(!new)>(c: seq<(K, V)>, k: K): seq<(K, V)>
  {
    if Find(c, k).Some? then [(k, Find(c, k).value)] + Without(c, k) else c
  }

  /** `put`: the entry goes to the front; the least recently used one falls off when the cache is full. */
  function Put<K(==, !new), V(!new)>(c: seq<(K, V)>, k: K, v: V, capacity: nat): (r: seq<(K, V)>)
    ensures |r| <= capacity
  {
    var r := [(k, v)] + Without(c, k);
    if |r| <= capacity then r else r[..capacity]
  }

  ghost predicate Distinct<K(!new), V(!new)>(c: seq<(K, V)>)
  {
    forall i, j :: 0 <= i < j < |c| ==> c[i].0 != c[j].0
  }

  lemma PrependDistinct<K(!new), V(!new)>(e: (K, V), rest: seq<(K, V)>)
    requires Distinct(rest) && forall j :: 0 <= j < |rest| ==> rest[j].0 != e.0
    ensures Distinct([e] + rest)
  {
  }

  lemma TruncateDistinct<K(!new), V(!new)>(c: seq<(K, V)>, n: nat)
    requires Distinct(c) && n <= |c|
    ensures Distinct(c[..n])
  {
  }

  lemma TailDistinct<K(!new), V(!new)>(c: seq<(K, V)>)
    requires Distinct(c) && c != []
    ensures Distinct(c[1..])
    ensures forall e :: e in c[1..] ==> e.0 != c[0].0
  {
    forall e | e in c[1..] ensures e.0 != c[0].0 {
      var i :| 0 <= i < |c[1..]| && c[1..][i] == e;
      assert c[i + 1] == e;
    }
  }

  lemma WithoutAvoids<K(!new), V(!new)>(c: seq<(K, V)>, k: K)
    ensures forall j :: 0 <= j < |Without(c, k)| ==> Without(c, k)[j].0 != k && Without(c, k)[j] in c
  {
    var r := Without(c, k);
    WithoutMembers(c, k);
    hide Without;
    forall j | 0 <= j < |r| ensures r[j].0 != k && r[j] in c { assert r[j] in r; }
  }

  lemma {:induction false} WithoutAbsent<K(!new), V(!new)>(c: seq<(K, V)>, k: K)
    requires forall e :: e in c ==> e.0 != k
    ensures Without(c, k) == c
  {
    if c == [] {
    } else {
      WithoutAbsent(c[1..], k);
    }
  }

  lemma {:induction false} WithoutDistinct<K(!new), V(!new)>(c: seq<(K, V)>, k: K)
    requires Distinct(c)
    ensures Distinct(Without(c, k))
  {
    if c == [] {
    } else {
      TailDistinct(c);
      hide Distinct;
      WithoutDistinct(c[1..], k);
      if c[0].0 != k {
        WithoutAvoids(c[1..], k);
        PrependDistinct(c[0], Without(c[1..], k));
      }
    }
  }

  lemma {:induction false} WithoutShorter<K(!new), V(!new)>(c: seq<(K, V)>, k: K)
    requires Find(c, k).Some?
    ensures |Without(c, k)| < |c|
  {
    if c[0].0 == k {
    } else {
      WithoutShorter(c[1..], k);
    }
  }

  lemma TouchKeepsBound<K(!new), V(!new)>(c: seq<(K, V)>, k: K)
    requires Distinct(c)
    ensures Distinct(Touch(c, k)) && |Touch(c, k)| <= |c|
  {
    hide Distinct, Find, Without;
    if Find(c, k).Some? {
      WithoutDistinct(c, k);
      WithoutAvoids(c, k);
      WithoutShorter(c, k);
      PrependDistinct((k, Find(c, k).value), Without(c, k));
    }
  }

  lemma PutKeepsDistinct<K(!new), V(!new)>(c: seq<(K, V)>, k: K, v: V, capacity: nat)
    requires Distinct(c)
    ensures Distinct(Put(c, k, v, capacity))
  {
    hide Distinct, Without;
    var r := [(k, v)] + Without(c, k);
    WithoutDistinct(c, k);
    WithoutAvoids(c, k);
    PrependDistinct((k, v), Without(c, k));
    if |r| > capacity { TruncateDistinct(r, capacity); }
  }

  /** Both operations keep keys distinct and the size within the capacity. */
  lemma UseKeepsBound<K(!new), V(!new)>(c: seq<(K, V)>, k: K, v: V, capacity: nat)
    requires Distinct(c) && |c| <= capacity
    ensures Distinct(Touch(c, k)) && |Touch(c, k)| <= capacity
    ensures Distinct(Put(c, k, v, capacity)) && |Put(c, k, v, capacity)| <= capacity
  {
    hide Distinct, Touch, Put;
    TouchKeepsBound(c, k);
    PutKeepsDistinct(c, k, v, capacity);
  }

  /** `(k, v)` is cached and everything used more recently is in `recent`. */
  ghost predicate Protected<K(!new), V(!new)>(c: seq<(K, V)>, k: K, v: V, recent: set<K>)
  {
    c != [] && (c[0] == (k, v) || (c[0].0 != k && c[0].0 in recent && Protected(c[1..], k, v, recent)))
  }

  lemma {:induction false} ProtectedFound<K(!new), V(!new)>(c: seq<(K, V)>, k: K, v: V, recent: set<K>)
    requires Protected(c, k, v, recent)
    ensures Find(c, k) == Some(v)
  {
    if c[0] == (k, v) {
    } else {
      ProtectedFound(c[1..], k, v, recent);
    }
  }

  lemma {:induction false} ProtectedWithout<K(!new), V(!new)>(c: seq<(K, V)>, k: K, v: V, recent: set<K>, other: K)
    requires Protected(c, k, v, recent) && other != k
    ensures Protected(Without(c, other), k, v, recent)
  {
    if c[0] == (k, v) {
    } else {
      ProtectedWithout(c[1..], k, v, recent, other);
      var r := Without(c[1..], other);
      assert ([c[0]] + r)[1..] == r;
    }
  }

  lemma {:induction false} ProtectedMonotone<K(!new), V(!new)>(c: seq<(K, V)>, k: K, v: V, recent: set<K>, more: set<K>)
    requires Protected(c, k, v, recent)
    requires forall i :: 0 <= i < |c| && c[i].0 in recent ==> c[i].0 in more
    ensures Protected(c, k, v, more)
  {
    if c[0] == (k, v) {
    } else {
      ProtectedMonotone(c[1..], k, v, recent, more);
    }
  }

  /** Fewer recent keys than the capacity: eviction cannot reach the entry. */
  lemma {:induction false} ProtectedTake<K(!new), V(!new)>(c: seq<(K, V)>, k: K, v: V, recent: set<K>, n: nat)
    requires Protected(c, k, v, recent) && Distinct(c) && |recent| < n <= |c|
    ensures Protected(c[..n], k, v, recent)
    decreases c
  {
    if c[0] == (k, v) {
    } else {
      var fewer := recent - {c[0].0};
      assert |fewer| == |recent| - 1;
      forall i | 0 <= i < |c[1..]| && c[1..][i].0 in recent ensures c[1..][i].0 in fewer {
        assert c[0].0 != c[i + 1].0;
      }
      ProtectedMonotone(c[1..], k, v, recent, fewer);
      ProtectedTake(c[1..], k, v, fewer, n - 1);
      assert c[1..][..n - 1] == c[..n][1..];
      ProtectedMonotone(c[1..][..n - 1], k, v, fewer, recent);
    }
  }

  lemma ProtectedPrepend<K(!new), V(!new)>(e: (K, V), c: seq<(K, V)>, k: K, v: V, recent: set<K>)
    requires Protected(c, k, v, recent) && e.0 != k && e.0 in recent
    ensures Protected([e] + c, k, v, recent)
  {
    assert ([e] + c)[1..] == c;
  }

  /** Using another key keeps the entry cached while fewer keys than the capacity have been used since. */
  lemma OtherUseKeepsProtected<K(!new), V(!new)>(c: seq<(K, V)>, k: K, v: V, recent: set<K>, other: K, w: V,
                                                 capacity: nat)
    requires Protected(c, k, v, recent) && Distinct(c) && other != k
    requires |recent + {other}| < capacity
    ensures Protected(Touch(c, other), k, v, recent + {other})
    ensures Protected(Put(c, other, w, capacity), k, v, recent + {other})
  {
    hide Protected, Distinct, Without, Find;
    var more, rest, r := recent + {other}, Without(c, other), [(other, w)] + Without(c, other);
    ProtectedMonotone(c, k, v, recent, more);
    ProtectedWithout(c, k, v, more, other);
    if Find(c, other).Some? { ProtectedPrepend((other, Find(c, other).value), rest, k, v, more); }
    ProtectedPrepend((other, w), rest, k, v, more);
    if |r| > capacity {
      WithoutDistinct(c, other);
      WithoutAvoids(c, other);
      PrependDistinct((other, w), rest);
      ProtectedTake(r, k, v, more, capacity);
    }
  }

  // ---- The exact place of an entry ----------------------------------------------------------------

  ghost function KeysOf<K(!new), V(!new)>(c: seq<(K, V)>): set<K>
  {
    set e | e in c :: e.0
  }

  /** With `recent` the other keys used since `k` was: fewer than the capacity, and `k` is cached right behind
      exactly these; as many or more, and `k` has been evicted. */
  ghost predicate Placed<K(!new), V(!new)>(c: seq<(K, V)>, k: K, recent: set<K>, capacity: nat)
  {
    if |recent| < capacity
    then |recent| < |c| && c[|recent|].0 == k && KeysOf(c[..|recent|]) == recent
    else Find(c, k).None?
  }

  lemma {:induction false} DistinctCount<K(!new), V(!new)>(c: seq<(K, V)>)
    requires Distinct(c)
    ensures |KeysOf(c)| == |c|
  {
    if c == [] {
      assert KeysOf(c) == {};
    } else {
      TailDistinct(c);
      DistinctCount(c[1..]);
      KeysSplit([c[0]], c[1..]);
      assert c == [c[0]] + c[1..] && KeysOf([c[0]]) == {c[0].0};
    }
  }

  lemma KeysSplit<K(!new), V(!new)>(a: seq<(K, V)>, b: seq<(K, V)>)
    ensures KeysOf(a + b) == KeysOf(a) + KeysOf(b)
  {
    forall k | k in KeysOf(a) + KeysOf(b) ensures k in KeysOf(a + b) {
      if k in KeysOf(a) {
        var e :| e in a && e.0 == k;
        assert e in a + b;
      } else {
        var e :| e in b && e.0 == k;
        assert e in a + b;
      }
    }
  }

  lemma KeysWithout<K(!new), V(!new)>(c: seq<(K, V)>, k: K)
    ensures KeysOf(Without(c, k)) == KeysOf(c) - {k}
  {
    WithoutMembers(c, k);
    forall x | x in KeysOf(c) - {k} ensures x in KeysOf(Without(c, k)) {
      var e :| e in c && e.0 == x;
      assert e in Without(c, k);
    }
  }

  lemma WithoutCons<K(!new), V(!new)>(e: (K, V), c: seq<(K, V)>, k: K)
    ensures Without([e] + c, k) == if e.0 == k then Without(c, k) else [e] + Without(c, k)
  {
    assert ([e] + c)[1..] == c;
  }

  lemma WithoutSplitCons<K(!new), V(!new)>(e: (K, V), a: seq<(K, V)>, b: seq<(K, V)>, k: K)
    requires Without(a + b, k) == Without(a, k) + Without(b, k)
    ensures Without([e] + (a + b), k) == Without([e] + a, k) + Without(b, k)
  {
    WithoutCons(e, a, k);
    WithoutCons(e, a + b, k);
    hide *;
    assert [e] + (Without(a, k) + Without(b, k)) == ([e] + Without(a, k)) + Without(b, k);
  }

  lemma {:induction false} WithoutSplit<K(!new), V(!new)>(a: seq<(K, V)>, b: seq<(K, V)>, k: K)
    ensures Without(a + b, k) == Without(a, k) + Without(b, k)
  {
    if a == [] {
      assert a + b == b;
    } else {
      hide *;
      WithoutSplit(a[1..], b, k);
      WithoutSplitCons(a[0], a[1..], b, k);
      assert [a[0]] + a[1..] == a && [a[0]] + (a[1..] + b) == a + b;
    }
  }

  /** The parts of a list around position `n`. */
  lemma AroundDistinct<K(!new), V(!new)>(c: seq<(K, V)>, n: nat)
    requires Distinct(c) && n < |c|
    ensures Distinct(c[..n]) && c == c[..n] + ([c[n]] + c[n + 1..])
    ensures c[n].0 !in KeysOf(c[..n])
    ensures KeysOf(c[..n]) !! KeysOf(c[n + 1..])
  {
  }

  /** Removing another key keeps what is in front of `k`, less that key. */
  lemma WithoutAround<K(!new), V(!new)>(c: seq<(K, V)>, n: nat, other: K)
    requires Distinct(c) && n < |c| && c[n].0 != other
    ensures var front := Without(c[..n], other);
            && Without(c, other) == front + ([c[n]] + Without(c[n + 1..], other))
            && KeysOf(front) == KeysOf(c[..n]) - {other} && |front| == |KeysOf(c[..n]) - {other}|
  {
    AroundDistinct(c, n);
    hide Distinct;
    var front := Without(c[..n], other);
    WithoutSplit(c[..n], [c[n]] + c[n + 1..], other);
    WithoutSplit([c[n]], c[n + 1..], other);
    KeysWithout(c[..n], other);
    WithoutDistinct(c[..n], other);
    DistinctCount(front);
  }

  lemma PutKeepsAbsent<K(!new), V(!new)>(c: seq<(K, V)>, k: K, other: K, w: V, capacity: nat)
    requires Find(c, k).None? && other != k
    ensures Find(Put(c, other, w, capacity), k).None?
  {
    WithoutAvoids(c, other);
    var r := Put(c, other, w, capacity);
    forall e | e in r ensures e.0 != k { assert e == (other, w) || e in c; }
  }

  /** A list cut at the capacity still has `k` behind exactly `recent`, or has lost it. */
  lemma PlacedAfterCut<K(!new), V(!new)>(front: seq<(K, V)>, e: (K, V), back: seq<(K, V)>, recent: set<K>,
                                         capacity: nat)
    requires KeysOf(front) == recent && |front| == |recent| && e.0 !in recent
    ensures var r := front + ([e] + back);
            Placed(if |r| <= capacity then r else r[..capacity], e.0, recent, capacity)
  {
    var r := front + ([e] + back);
    var cut := if |r| <= capacity then r else r[..capacity];
    if |recent| < capacity {
      assert cut[..|front|] == front && cut[|front|] == e;
    } else {
      assert cut == front[..capacity];
      forall x | x in cut ensures x.0 != e.0 { assert x.0 in KeysOf(front); }
    }
  }

  /** Using another key: it joins the keys in front of `k`, and evicts `k` exactly when they reach the capacity. */
  lemma PutKeepsPlaced<K(!new), V(!new)>(c: seq<(K, V)>, k: K, recent: set<K>, other: K, w: V, capacity: nat)
    requires Distinct(c) && |c| <= capacity && Placed(c, k, recent, capacity) && other != k
    ensures Placed(Put(c, other, w, capacity), k, recent + {other}, capacity)
  {
    var n := |recent|;
    if n < capacity {
      PutBehind(c, n, other, w, capacity);
    } else {
      PutKeepsAbsent(c, k, other, w, capacity);
      hide Put, Find;
      assert other in recent ==> recent + {other} == recent;
    }
  }

  lemma PutBehind<K(!new), V(!new)>(c: seq<(K, V)>, n: nat, other: K, w: V, capacity: nat)
    requires Distinct(c) && n < |c| && c[n].0 != other
    ensures Placed(Put(c, other, w, capacity), c[n].0, KeysOf(c[..n]) + {other}, capacity)
  {
    AroundDistinct(c, n);
    WithoutAround(c, n, other);
    hide Without, Distinct, Placed, KeysOf;
    ConsPlaced((other, w), Without(c[..n], other), c[n], Without(c[n + 1..], other), KeysOf(c[..n]), capacity);
  }

  lemma ConsPlaced<K(!new), V(!new)>(o: (K, V), front: seq<(K, V)>, e: (K, V), back: seq<(K, V)>, recent: set<K>,
                                     capacity: nat)
    requires KeysOf(front) == recent - {o.0} && |front| == |recent - {o.0}| && e.0 !in recent && e.0 != o.0
    ensures var r := [o] + (front + ([e] + back));
            Placed(if |r| <= capacity then r else r[..capacity], e.0, recent + {o.0}, capacity)
  {
    var head := [o] + front;
    KeysSplit([o], front);
    assert KeysOf([o]) == {o.0} && recent + {o.0} == {o.0} + (recent - {o.0});
    assert [o] + (front + ([e] + back)) == head + ([e] + back);
    hide KeysOf, Placed;
    PlacedAfterCut(head, e, back, recent + {o.0}, capacity);
  }

  /** A hit is a `put` of the value found. */
  lemma TouchIsPut<K(!new), V(!new)>(c: seq<(K, V)>, k: K, capacity: nat)
    requires |c| <= capacity && Find(c, k).Some?
    ensures Touch(c, k) == Put(c, k, Find(c, k).value, capacity)
  {
    WithoutShorter(c, k);
  }

  lemma PutPlacesFirst<K(!new), V(!new)>(c: seq<(K, V)>, k: K, v: V, capacity: nat)
    ensures Placed(Put(c, k, v, capacity), k, {}, capacity)
  {
    var r := Put(c, k, v, capacity);
    assert capacity > 0 ==> r[..0] == [] && KeysOf(r[..0]) == {};
  }

  lemma PlacedFound<K(!new), V(!new)>(c: seq<(K, V)>, k: K, recent: set<K>, capacity: nat)
    requires Placed(c, k, recent, capacity)
    ensures Find(c, k).Some? <==> |recent| < capacity
  {
    if |recent| < capacity { assert c[|recent|] in c; }
  }
}
