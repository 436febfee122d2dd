/** The routing table (src/router/table.rs): an LRU cache of next hops that refines a plain map. */
module RoutingTable {
  import opened Core
  import opened Lru

  type Hops = seq<Key>
  type Routes = seq<(Key, Hops)>

  /** A zero capacity is replaced by 128. */
  function TableCapacity(capacity: nat): (n: nat)
    ensures n > 0
  {
    if capacity == 0 then 128 else capacity
  }

  function PutAll(c: Routes, entries: seq<(Key, Hops)>, capacity: nat): Routes
  {
    if entries == [] then c
    else
      var e := entries[|entries| - 1];
      Put(PutAll(c, entries[..|entries| - 1], capacity), e.0, e.1, capacity)
  }

  /** A route that neither leads to `peer` nor passes through it. */
  predicate Avoids(e: (Key, Hops), peer: Key)
  {
    e.0 != peer && peer !in e.1
  }

  /** The routes that avoid `peer`, with their values and in their recency order. */
  function Avoiding(c: Routes, peer: Key): Routes
  {
    if c == [] then []
    else if Avoids(c[0], peer) then [c[0]] + Avoiding(c[1..], peer)
    else Avoiding(c[1..], peer)
  }

  ghost function WithoutAll(c: Routes, keys: set<Key>): Routes
  {
    if c == [] then []
    else if c[0].0 in keys then WithoutAll(c[1..], keys)
    else [c[0]] + WithoutAll(c[1..], keys)
  }

  lemma {:induction false} WithoutAllStep(c: Routes, keys: set<Key>, k: Key)
    ensures Without(WithoutAll(c, keys), k) == WithoutAll(c, keys + {k})
  {
    if c == [] {
    } else {
      WithoutAllStep(c[1..], keys, k);
      var r := WithoutAll(c[1..], keys);
      assert ([c[0]] + r)[1..] == r;
    }
  }

  lemma {:induction false} WithoutAllIsAvoiding(c: Routes, keys: set<Key>, peer: Key)
    requires forall i :: 0 <= i < |c| ==> (c[i].0 in keys <==> !Avoids(c[i], peer))
    ensures WithoutAll(c, keys) == Avoiding(c, peer)
  {
    if c == [] {
    } else {
      WithoutAllIsAvoiding(c[1..], keys, peer);
    }
  }

  class RoutingTable {
    const capacity: nat
    var cache: Routes
    var hits: nat
    var misses: nat
    var refreshes: nat
    var invalidations: nat

    ghost predicate Valid()
      reads this
    {
      Distinct(cache) && |cache| <= capacity
    }

    constructor (capacity: nat)
      ensures Valid() && this.capacity == (if capacity == 0 then 128 else capacity) && cache == []
      ensures hits == misses == refreshes == invalidations == 0
    {
      this.capacity := TableCapacity(capacity);
      cache := [];
      hits, misses, refreshes, invalidations := 0, 0, 0, 0;
    }

    method Lookup(dest: Key) returns (r: Option<Hops>)
      requires Valid()
      modifies this`cache, this`hits, this`misses
      ensures Valid()
      ensures r == Find(old(cache), dest) && cache == Touch(old(cache), dest)
      ensures hits == old(hits) + (if r.Some? then 1 else 0)
      ensures misses == old(misses) + (if r.None? then 1 else 0)
    {
      UseKeepsBound(cache, dest, [], capacity);
      r := Find(cache, dest);
      cache := Touch(cache, dest);
      if r.Some? { hits := hits + 1; } else { misses := misses + 1; }
    }

    method Insert(dest: Key, hops: Hops)
      requires Valid()
      modifies this`cache
      ensures Valid()
      ensures cache == Put(old(cache), dest, hops, capacity)
    {
      UseKeepsBound(cache, dest, hops, capacity);
      cache := Put(cache, dest, hops, capacity);
    }

    method Refresh(entries: seq<(Key, Hops)>)
      requires Valid()
      modifies this`cache, this`refreshes
      ensures Valid()
      ensures cache == PutAll(old(cache), entries, capacity) && refreshes == old(refreshes) + 1
    {
      for i := 0 to |entries|
        invariant Valid()
        invariant cache == PutAll(old(cache), entries[..i], capacity) && refreshes == old(refreshes)
      {
        assert entries[..i + 1][..i] == entries[..i];
        UseKeepsBound(cache, entries[i].0, entries[i].1, capacity);
        cache := Put(cache, entries[i].0, entries[i].1, capacity);
      }
      assert entries[..|entries|] == entries;
      refreshes := refreshes + 1;
    }

    method Invalidate(peer: Key)
      requires Valid()
      modifies this`cache, this`invalidations
      ensures Valid()
      ensures cache == Avoiding(old(cache), peer) && invalidations == old(invalidations) + 1
    {
      cache := Without(cache, peer);
      WithoutAllStep(old(cache), {}, peer);
      NothingRemoved(old(cache));
      WithoutDistinct(old(cache), peer);
      var keys := set e | e in cache && peer in e.1 :: e.0;
      ghost var removed := {peer};
      assert {} + {peer} == removed;
      var rest := keys;
      while rest != {}
        invariant Valid() && invalidations == old(invalidations)
        invariant cache == WithoutAll(old(cache), removed) && removed == {peer} + (keys - rest) && rest <= keys
        decreases rest
      {
        var k :| k in rest;
        rest := rest - {k};
        WithoutAllStep(old(cache), removed, k);
        WithoutDistinct(cache, k);
        cache := Without(cache, k);
        removed := removed + {k};
        assert removed == {peer} + (keys - rest);
      }
      RemovedAreRoutesVia(old(cache), keys, peer);
      assert removed == {peer} + keys;
      invalidations := invalidations + 1;
    }

    method Clear()
      modifies this`cache, this`invalidations
      ensures Valid() && cache == [] && invalidations == old(invalidations) + |old(cache)|
    {
      invalidations := invalidations + |cache|;
      cache := [];
    }
  }

  lemma {:induction false} NothingRemoved(c: Routes)
    ensures WithoutAll(c, {}) == c
  {
    if c == [] {
    } else {
      NothingRemoved(c[1..]);
    }
  }

  lemma RemovedAreRoutesVia(c: Routes, keys: set<Key>, peer: Key)
    requires Distinct(c)
    requires keys == set e | e in Without(c, peer) && peer in e.1 :: e.0
    ensures WithoutAll(c, {peer} + keys) == Avoiding(c, peer)
  {
    WithoutMembers(c, peer);
    forall i | 0 <= i < |c| ensures c[i].0 in {peer} + keys <==> !Avoids(c[i], peer) {
      if c[i].0 in keys {
        var e :| e in Without(c, peer) && peer in e.1 && e.0 == c[i].0;
        var j :| 0 <= j < |c| && c[j] == e;
        assert i == j;
      }
      if c[i].0 != peer && peer in c[i].1 {
        assert c[i] in Without(c, peer);
      }
    }
    WithoutAllIsAvoiding(c, {peer} + keys, peer);
  }

  // ---- Refinement of a plain map ------------------------------------------------------------------

  datatype Op =
    | Lookup(dest: Key)
    | Insert(dest: Key, hops: Hops)
    | Refresh(entries: seq<(Key, Hops)>)
    | Invalidate(peer: Key)
    | Clear

  ghost function Apply(c: Routes, op: Op, capacity: nat): Routes
  {
    match op
    case Lookup(d) => Touch(c, d)
    case Insert(d, h) => Put(c, d, h, capacity)
    case Refresh(es) => PutAll(c, es, capacity)
    case Invalidate(p) => Avoiding(c, p)
    case Clear => []
  }

  ghost function InsertAll(m: map<Key, Hops>, entries: seq<(Key, Hops)>): map<Key, Hops>
  {
    if entries == [] then m
    else InsertAll(m, entries[..|entries| - 1])[entries[|entries| - 1].0 := entries[|entries| - 1].1]
  }

  /** The reference: a map without eviction. */
  ghost function ApplyPlain(m: map<Key, Hops>, op: Op): map<Key, Hops>
  {
    match op
    case Lookup(_) => m
    case Insert(d, h) => m[d := h]
    case Refresh(es) => InsertAll(m, es)
    case Invalidate(p) => map d | d in m && Avoids((d, m[d]), p) :: m[d]
    case Clear => map[]
  }

  ghost function Run(ops: seq<Op>, capacity: nat): Routes
  {
    if ops == [] then [] else Apply(Run(ops[..|ops| - 1], capacity), ops[|ops| - 1], capacity)
  }

  ghost function RunPlain(ops: seq<Op>): map<Key, Hops>
  {
    if ops == [] then map[] else ApplyPlain(RunPlain(ops[..|ops| - 1]), ops[|ops| - 1])
  }

  ghost predicate WithinMap(c: Routes, m: map<Key, Hops>)
  {
    forall e :: e in c ==> e.0 in m && m[e.0] == e.1
  }

  ghost predicate TableInv(c: Routes, m: map<Key, Hops>, capacity: nat)
  {
    Distinct(c) && |c| <= capacity && WithinMap(c, m)
  }

  lemma {:induction false} AvoidingMeaning(c: Routes, peer: Key)
    ensures forall e :: e in Avoiding(c, peer) <==> e in c && Avoids(e, peer)
    ensures |Avoiding(c, peer)| <= |c|
    ensures Distinct(c) ==> Distinct(Avoiding(c, peer))
  {
    if c == [] {
    } else {
      AvoidingMeaning(c[1..], peer);
      var r := Avoiding(c[1..], peer);
      if Distinct(c) {
        forall j | 0 <= j < |r| ensures c[0].0 != r[j].0 {
          assert r[j] in c[1..];
        }
      }
    }
  }

  /** `invalidate` keeps the unrelated routes in their recency order. */
  lemma {:induction false} AvoidingKeepsOrder(c: Routes, peer: Key, i: nat, j: nat) returns (p: nat, q: nat)
    requires i < j < |Avoiding(c, peer)|
    ensures p < q < |c| && c[p] == Avoiding(c, peer)[i] && c[q] == Avoiding(c, peer)[j]
  {
    var rest := Avoiding(c[1..], peer);
    if Avoids(c[0], peer) {
      if i == 0 {
        AvoidingMeaning(c[1..], peer);
        assert rest[j - 1] in c[1..];
        q :| 0 <= q < |c[1..]| && c[1..][q] == rest[j - 1];
        p, q := 0, q + 1;
      } else {
        p, q := AvoidingKeepsOrder(c[1..], peer, i - 1, j - 1);
        p, q := p + 1, q + 1;
      }
    } else {
      p, q := AvoidingKeepsOrder(c[1..], peer, i, j);
      p, q := p + 1, q + 1;
    }
  }

  lemma PutKeepsInv(c: Routes, m: map<Key, Hops>, d: Key, h: Hops, capacity: nat)
    requires TableInv(c, m, capacity)
    ensures TableInv(Put(c, d, h, capacity), m[d := h], capacity)
  {
    UseKeepsBound(c, d, h, capacity);
    WithoutMembers(c, d);
    hide Without, Distinct;
    var r := Put(c, d, h, capacity);
    forall e | e in r ensures e.0 in m[d := h] && m[d := h][e.0] == e.1 { assert e == (d, h) || e in Without(c, d); }
  }

  lemma TouchKeepsInv(c: Routes, m: map<Key, Hops>, d: Key, capacity: nat)
    requires TableInv(c, m, capacity)
    ensures TableInv(Touch(c, d), m, capacity)
  {
    UseKeepsBound(c, d, [], capacity);
    WithoutMembers(c, d);
    hide Without, Distinct;
    forall e | e in Touch(c, d) ensures e in c {}
  }

  lemma {:induction false} PutAllKeepsInv(c: Routes, m: map<Key, Hops>, entries: seq<(Key, Hops)>, capacity: nat)
    requires TableInv(c, m, capacity)
    ensures TableInv(PutAll(c, entries, capacity), InsertAll(m, entries), capacity)
  {
    if entries == [] {
    } else {
      var pre, e := entries[..|entries| - 1], entries[|entries| - 1];
      PutAllKeepsInv(c, m, pre, capacity);
      PutKeepsInv(PutAll(c, pre, capacity), InsertAll(m, pre), e.0, e.1, capacity);
    }
  }

  lemma StepKeepsInv(c: Routes, m: map<Key, Hops>, op: Op, capacity: nat)
    requires TableInv(c, m, capacity)
    ensures TableInv(Apply(c, op, capacity), ApplyPlain(m, op), capacity)
  {
    match op
    case Lookup(d) => TouchKeepsInv(c, m, d, capacity);
    case Insert(d, h) => PutKeepsInv(c, m, d, h, capacity);
    case Refresh(es) => PutAllKeepsInv(c, m, es, capacity);
    case Invalidate(p) => AvoidingMeaning(c, p);
    case Clear =>
  }

  /** In every run the table is bounded and agrees with the plain map wherever it answers: each hit is the
      value latest inserted or refreshed for that destination and not invalidated since. */
  lemma {:induction false} RefinesPlainMap(ops: seq<Op>, capacity: nat, dest: Key)
    ensures TableInv(Run(ops, capacity), RunPlain(ops), capacity)
    ensures Find(Run(ops, capacity), dest).Some? ==>
              dest in RunPlain(ops) && RunPlain(ops)[dest] == Find(Run(ops, capacity), dest).value
  {
    if ops == [] {
    } else {
      var pre := ops[..|ops| - 1];
      RefinesPlainMap(pre, capacity, dest);
      StepKeepsInv(Run(pre, capacity), RunPlain(pre), ops[|ops| - 1], capacity);
    }
  }

  // ---- Invalidation -------------------------------------------------------------------------------

  ghost predicate Introduces(op: Op, peer: Key)
  {
    match op
    case Insert(d, h) => !Avoids((d, h), peer)
    case Refresh(es) => exists e :: e in es && !Avoids(e, peer)
    case _ => false
  }

  ghost predicate NoRouteVia(m: map<Key, Hops>, peer: Key)
  {
    forall d :: d in m ==> Avoids((d, m[d]), peer)
  }

  lemma {:induction false} InsertAllAvoids(m: map<Key, Hops>, entries: seq<(Key, Hops)>, peer: Key)
    requires NoRouteVia(m, peer) && forall e :: e in entries ==> Avoids(e, peer)
    ensures NoRouteVia(InsertAll(m, entries), peer)
  {
    if entries == [] {
    } else {
      InsertAllAvoids(m, entries[..|entries| - 1], peer);
    }
  }

  lemma {:induction false} PlainStaysClear(ops: seq<Op>, more: seq<Op>, peer: Key)
    requires forall op :: op in more ==> !Introduces(op, peer)
    ensures NoRouteVia(RunPlain(ops + [Invalidate(peer)] + more), peer)
    decreases more
  {
    var all := ops + [Invalidate(peer)] + more;
    if more == [] {
      assert all[..|all| - 1] == ops && all[|all| - 1] == Invalidate(peer);
    } else {
      var pre, op := more[..|more| - 1], more[|more| - 1];
      assert op in more && all[..|all| - 1] == ops + [Invalidate(peer)] + pre;
      PlainStaysClear(ops, pre, peer);
      if op.Refresh? { InsertAllAvoids(RunPlain(ops + [Invalidate(peer)] + pre), op.entries, peer); }
    }
  }

  /** After `invalidate(peer)`, until a route to or through `peer` is inserted or refreshed again, no lookup
      returns one. */
  lemma InvalidatedUntilReinserted(ops: seq<Op>, more: seq<Op>, peer: Key, capacity: nat, dest: Key)
    requires forall op :: op in more ==> !Introduces(op, peer)
    ensures var r := Find(Run(ops + [Invalidate(peer)] + more, capacity), dest);
            r.Some? ==> dest != peer && peer !in r.value
  {
    PlainStaysClear(ops, more, peer);
    RefinesPlainMap(ops + [Invalidate(peer)] + more, capacity, dest);
  }

  // ---- No eviction: the table is the map ----------------------------------------------------------

  ghost function DestsOf(entries: seq<(Key, Hops)>): set<Key>
  {
    set e | e in entries :: e.0
  }

  /** Every destination the run ever inserted or refreshed. */
  ghost function Dests(ops: seq<Op>): set<Key>
  {
    if ops == [] then {}
    else
      match ops[|ops| - 1]
      case Insert(d, _) => Dests(ops[..|ops| - 1]) + {d}
      case Refresh(es) => Dests(ops[..|ops| - 1]) + DestsOf(es)
      case _ => Dests(ops[..|ops| - 1])
  }

  ghost predicate SameAsMap(c: Routes, m: map<Key, Hops>)
  {
    forall d :: (d in m <==> Find(c, d).Some?) && (d in m ==> Find(c, d) == Some(m[d]))
  }

  lemma {:induction false} DistinctKeysBound(c: Routes, keys: set<Key>)
    requires Distinct(c) && forall e :: e in c ==> e.0 in keys
    ensures |c| <= |keys|
  {
    if c == [] {
    } else {
      var rest := keys - {c[0].0};
      assert c[0] in c && |rest| == |keys| - 1;
      forall e | e in c[1..] ensures e.0 in rest {
        assert e in c;
      }
      DistinctKeysBound(c[1..], rest);
    }
  }

  lemma {:induction false} FindWithout(c: Routes, k: Key, d: Key)
    ensures Find(Without(c, k), d) == if d == k then None else Find(c, d)
  {
    if c == [] {
    } else {
      FindWithout(c[1..], k, d);
      var r := Without(c[1..], k);
      assert ([c[0]] + r)[1..] == r;
    }
  }

  lemma FindPut(c: Routes, d: Key, h: Hops, x: Key)
    ensures Find([(d, h)] + Without(c, d), x) == if x == d then Some(h) else Find(c, x)
  {
    FindWithout(c, d, x);
    assert ([(d, h)] + Without(c, d))[1..] == Without(c, d);
  }

  lemma PutFits(c: Routes, m: map<Key, Hops>, d: Key, h: Hops, capacity: nat, keys: set<Key>)
    requires TableInv(c, m, capacity) && m.Keys <= keys && d in keys && |keys| <= capacity
    ensures Put(c, d, h, capacity) == [(d, h)] + Without(c, d)
  {
    WithoutDistinct(c, d);
    WithoutAvoids(c, d);
    PrependDistinct((d, h), Without(c, d));
    hide Without, Distinct;
    forall e | e in [(d, h)] + Without(c, d) ensures e.0 in keys { assert e == (d, h) || e in c; }
    DistinctKeysBound([(d, h)] + Without(c, d), keys);
  }

  lemma PutSame(c: Routes, m: map<Key, Hops>, d: Key, h: Hops, capacity: nat, keys: set<Key>)
    requires TableInv(c, m, capacity) && SameAsMap(c, m)
    requires m.Keys <= keys && d in keys && |keys| <= capacity
    ensures SameAsMap(Put(c, d, h, capacity), m[d := h])
  {
    PutFits(c, m, d, h, capacity, keys);
    forall x ensures Find(Put(c, d, h, capacity), x) == if x == d then Some(h) else Find(c, x) {
      FindPut(c, d, h, x);
    }
  }

  lemma {:induction false} PutAllSame(c: Routes, m: map<Key, Hops>, entries: seq<(Key, Hops)>, capacity: nat,
                                      keys: set<Key>)
    requires TableInv(c, m, capacity) && SameAsMap(c, m)
    requires m.Keys <= keys && DestsOf(entries) <= keys && |keys| <= capacity
    ensures SameAsMap(PutAll(c, entries, capacity), InsertAll(m, entries))
    ensures InsertAll(m, entries).Keys <= keys
  {
    if entries == [] {
    } else {
      var pre, e := entries[..|entries| - 1], entries[|entries| - 1];
      assert e in entries && e.0 in DestsOf(entries);
      PutAllSame(c, m, pre, capacity, keys);
      PutAllKeepsInv(c, m, pre, capacity);
      PutSame(PutAll(c, pre, capacity), InsertAll(m, pre), e.0, e.1, capacity, keys);
    }
  }

  lemma TouchSame(c: Routes, d: Key, x: Key)
    requires Distinct(c)
    ensures Find(Touch(c, d), x) == Find(c, x)
  {
    FindWithout(c, d, x);
    if Find(c, d).Some? { assert Touch(c, d)[1..] == Without(c, d); }
  }

  lemma {:induction false} AvoidingSame(c: Routes, peer: Key, d: Key)
    requires Distinct(c)
    ensures Find(Avoiding(c, peer), d)
         == if Find(c, d).Some? && Avoids((d, Find(c, d).value), peer) then Find(c, d) else None
  {
    if c == [] {
    } else {
      AvoidingSame(c[1..], peer, d);
      var r := Avoiding(c[1..], peer);
      assert ([c[0]] + r)[1..] == r;
    }
  }

  /** While a run uses no more destinations than the capacity, nothing is evicted: the table answers exactly
      as the plain map does, hits and misses alike. */
  lemma {:induction false} ExactWithoutEviction(ops: seq<Op>, capacity: nat)
    requires |Dests(ops)| <= capacity
    ensures SameAsMap(Run(ops, capacity), RunPlain(ops))
    ensures RunPlain(ops).Keys <= Dests(ops)
  {
    if ops == [] {
    } else {
      var pre, op := ops[..|ops| - 1], ops[|ops| - 1];
      FewerDests(ops);
      ExactWithoutEviction(pre, capacity);
      RefinesPlainMap(pre, capacity, 0);
      StepSame(Run(pre, capacity), RunPlain(pre), op, capacity, Dests(ops));
    }
  }

  lemma FewerDests(ops: seq<Op>)
    requires ops != []
    ensures |Dests(ops[..|ops| - 1])| <= |Dests(ops)|
  {
    SubsetSize(Dests(ops[..|ops| - 1]), Dests(ops));
  }

  lemma {:induction false} SubsetSize(a: set<Key>, b: set<Key>)
    requires a <= b
    ensures |a| <= |b|
  {
    if a == {} {
    } else {
      var x :| x in a;
      SubsetSize(a - {x}, b - {x});
    }
  }

  lemma StepSame(c: Routes, m: map<Key, Hops>, op: Op, capacity: nat, keys: set<Key>)
    requires TableInv(c, m, capacity) && SameAsMap(c, m)
    requires m.Keys <= keys && |keys| <= capacity
    requires op.Insert? ==> op.dest in keys
    requires op.Refresh? ==> DestsOf(op.entries) <= keys
    ensures SameAsMap(Apply(c, op, capacity), ApplyPlain(m, op))
    ensures ApplyPlain(m, op).Keys <= keys
  {
    match op
    case Lookup(d) => forall x ensures Find(Touch(c, d), x) == Find(c, x) { TouchSame(c, d, x); }
    case Insert(d, h) => PutSame(c, m, d, h, capacity, keys);
    case Refresh(es) => PutAllSame(c, m, es, capacity, keys);
    case Invalidate(p) =>
      forall d ensures Find(Avoiding(c, p), d)
                    == if Find(c, d).Some? && Avoids((d, Find(c, d).value), p) then Find(c, d) else None {
        AvoidingSame(c, p, d);
      }
    case Clear =>
  }

  // ---- Recency: what eviction must not take -------------------------------------------------------

  ghost function RunFrom(c: Routes, ops: seq<Op>, capacity: nat): Routes
  {
    if ops == [] then c else Apply(RunFrom(c, ops[..|ops| - 1], capacity), ops[|ops| - 1], capacity)
  }

  /** The operation uses `dest` only by looking it up, and otherwise only destinations of `others`. */
  ghost predicate UsesOnly(op: Op, dest: Key, others: set<Key>)
  {
    match op
    case Lookup(d) => d == dest || d in others
    case Insert(d, _) => d in others
    case Refresh(es) => forall e :: e in es ==> e.0 in others
    case _ => false
  }

  lemma {:induction false} PutAllKeepsProtected(c: Routes, entries: seq<(Key, Hops)>, dest: Key, hops: Hops,
                                                others: set<Key>, capacity: nat)
    requires Distinct(c) && |c| <= capacity && Protected(c, dest, hops, others)
    requires dest !in others && |others| < capacity && forall e :: e in entries ==> e.0 in others
    ensures var r := PutAll(c, entries, capacity);
            Distinct(r) && |r| <= capacity && Protected(r, dest, hops, others)
  {
    if entries == [] {
    } else {
      var pre, e := entries[..|entries| - 1], entries[|entries| - 1];
      assert e in entries;
      PutAllKeepsProtected(c, pre, dest, hops, others, capacity);
      UseKeepsBound(PutAll(c, pre, capacity), e.0, e.1, capacity);
      assert others + {e.0} == others;
      OtherUseKeepsProtected(PutAll(c, pre, capacity), dest, hops, others, e.0, e.1, capacity);
    }
  }

  lemma ApplyKeepsProtected(c: Routes, op: Op, dest: Key, hops: Hops, others: set<Key>, capacity: nat)
    requires Distinct(c) && |c| <= capacity && Protected(c, dest, hops, others)
    requires dest !in others && |others| < capacity && UsesOnly(op, dest, others)
    ensures var r := Apply(c, op, capacity);
            Distinct(r) && |r| <= capacity && Protected(r, dest, hops, others)
  {
    ProtectedFound(c, dest, hops, others);
    match op
    case Lookup(d) =>
      UseKeepsBound(c, d, [], capacity);
      if d != dest {
        assert others + {d} == others;
        OtherUseKeepsProtected(c, dest, hops, others, d, [], capacity);
      }
    case Insert(d, h) =>
      UseKeepsBound(c, d, h, capacity);
      assert others + {d} == others;
      OtherUseKeepsProtected(c, dest, hops, others, d, h, capacity);
    case Refresh(es) => PutAllKeepsProtected(c, es, dest, hops, others, capacity);
  }

  lemma {:induction false} RunKeepsProtected(c: Routes, ops: seq<Op>, dest: Key, hops: Hops, others: set<Key>,
                                             capacity: nat)
    requires Distinct(c) && |c| <= capacity && Protected(c, dest, hops, others)
    requires dest !in others && |others| < capacity && forall op :: op in ops ==> UsesOnly(op, dest, others)
    ensures var r := RunFrom(c, ops, capacity);
            Distinct(r) && |r| <= capacity && Protected(r, dest, hops, others)
  {
    if ops == [] {
    } else {
      var pre, op := ops[..|ops| - 1], ops[|ops| - 1];
      assert op in ops;
      RunKeepsProtected(c, pre, dest, hops, others, capacity);
      ApplyKeepsProtected(RunFrom(c, pre, capacity), op, dest, hops, others, capacity);
    }
  }

  /** Eviction is by recency: a route that was just found or inserted is still found after any operations that
      use fewer other destinations than the capacity and invalidate nothing. */
  lemma RecentRouteIsRetained(c: Routes, use: Op, dest: Key, hops: Hops, ops: seq<Op>, others: set<Key>, capacity: nat)
    requires Distinct(c) && |c| <= capacity && dest !in others && |others| < capacity
    requires use == Insert(dest, hops) || (use == Lookup(dest) && Find(c, dest) == Some(hops))
    requires forall op :: op in ops ==> UsesOnly(op, dest, others)
    ensures Find(RunFrom(Apply(c, use, capacity), ops, capacity), dest) == Some(hops)
  {
    UseKeepsBound(c, dest, hops, capacity);
    var c' := Apply(c, use, capacity);
    assert Protected(c', dest, hops, others);
    RunKeepsProtected(c', ops, dest, hops, others, capacity);
    ProtectedFound(RunFrom(c', ops, capacity), dest, hops, others);
  }

  /** No operation of the run invalidates routes. */
  ghost predicate NoInvalidation(ops: seq<Op>)
  {
    forall i :: 0 <= i < |ops| ==> !ops[i].Invalidate? && !ops[i].Clear?
  }

  ghost function SinceEntries(recent: set<Key>, entries: seq<(Key, Hops)>, dest: Key): set<Key>
  {
    if entries == [] then recent
    else
      var pre, e := entries[..|entries| - 1], entries[|entries| - 1];
      if e.0 == dest then {} else SinceEntries(recent, pre, dest) + {e.0}
  }

  /** The other destinations used (found, inserted or refreshed) since `dest` was. */
  ghost function UsedSince(c: Routes, ops: seq<Op>, dest: Key, capacity: nat): set<Key>
  {
    if ops == [] then {}
    else
      var pre := ops[..|ops| - 1];
      var recent := UsedSince(c, pre, dest, capacity);
      match ops[|ops| - 1]
      case Lookup(d) =>
        if Find(RunFrom(c, pre, capacity), d).None? then recent else if d == dest then {} else recent + {d}
      case Insert(d, _) => if d == dest then {} else recent + {d}
      case Refresh(es) => SinceEntries(recent, es, dest)
      case _ => recent
  }

  /** The table is bounded, and `dest` is behind exactly `recent` or evicted. */
  ghost predicate PlacedInv(c: Routes, dest: Key, recent: set<Key>, capacity: nat)
  {
    Distinct(c) && |c| <= capacity && Placed(c, dest, recent, capacity)
  }

  lemma {:induction false} PutAllKeepsPlaced(c: Routes, entries: seq<(Key, Hops)>, dest: Key, recent: set<Key>,
                                             capacity: nat)
    requires PlacedInv(c, dest, recent, capacity)
    ensures PlacedInv(PutAll(c, entries, capacity), dest, SinceEntries(recent, entries, dest), capacity)
  {
    if entries == [] {
    } else {
      var pre, e := entries[..|entries| - 1], entries[|entries| - 1];
      PutAllKeepsPlaced(c, pre, dest, recent, capacity);
      hide Put, Placed, Distinct;
      PutIsPlaced(PutAll(c, pre, capacity), dest, SinceEntries(recent, pre, dest), e.0, e.1, capacity);
    }
  }

  lemma PutIsPlaced(c: Routes, dest: Key, recent: set<Key>, d: Key, h: Hops, capacity: nat)
    requires PlacedInv(c, dest, recent, capacity)
    ensures PlacedInv(Put(c, d, h, capacity), dest, if d == dest then {} else recent + {d}, capacity)
  {
    UseKeepsBound(c, d, h, capacity);
    hide Put, Placed, Distinct;
    if d == dest {
      PutPlacesFirst(c, d, h, capacity);
    } else {
      PutKeepsPlaced(c, dest, recent, d, h, capacity);
    }
  }

  lemma TouchIsPlaced(c: Routes, dest: Key, recent: set<Key>, d: Key, capacity: nat)
    requires PlacedInv(c, dest, recent, capacity) && Find(c, d).Some?
    ensures PlacedInv(Touch(c, d), dest, if d == dest then {} else recent + {d}, capacity)
  {
    TouchIsPut(c, d, capacity);
    hide PlacedInv, Put, Touch;
    PutIsPlaced(c, dest, recent, d, Find(c, d).value, capacity);
  }

  lemma {:induction false} RunKeepsPlaced(c: Routes, ops: seq<Op>, dest: Key, capacity: nat)
    requires PlacedInv(c, dest, {}, capacity) && NoInvalidation(ops)
    ensures PlacedInv(RunFrom(c, ops, capacity), dest, UsedSince(c, ops, dest, capacity), capacity)
  {
    if ops == [] {
    } else {
      var pre, op := ops[..|ops| - 1], ops[|ops| - 1];
      RunKeepsPlaced(c, pre, dest, capacity);
      var t, recent := RunFrom(c, pre, capacity), UsedSince(c, pre, dest, capacity);
      hide PlacedInv, Put, PutAll, SinceEntries;
      match op
      case Lookup(d) => if Find(t, d).Some? { TouchIsPlaced(t, dest, recent, d, capacity); }
      case Insert(d, h) => PutIsPlaced(t, dest, recent, d, h, capacity);
      case Refresh(es) => PutAllKeepsPlaced(t, es, dest, recent, capacity);
    }
  }

  /** Exactly when recency evicts: after any operations that invalidate nothing, a route that was found or inserted
      is still held if and only if fewer other destinations than the capacity were used since it last was. */
  lemma RouteIsRetainedIff(c: Routes, use: Op, dest: Key, ops: seq<Op>, capacity: nat)
    requires Distinct(c) && |c| <= capacity && NoInvalidation(ops)
    requires (use.Insert? && use.dest == dest) || (use == Lookup(dest) && Find(c, dest).Some?)
    ensures var c' := Apply(c, use, capacity);
            Find(RunFrom(c', ops, capacity), dest).Some? <==> |UsedSince(c', ops, dest, capacity)| < capacity
  {
    var c' := Apply(c, use, capacity);
    if use.Lookup? { TouchIsPut(c, dest, capacity); }
    var h := if use.Insert? then use.hops else Find(c, dest).value;
    UseKeepsBound(c, dest, h, capacity);
    PutPlacesFirst(c, dest, h, capacity);
    hide Placed, Put, Distinct, Find, Touch;
    RunKeepsPlaced(c', ops, dest, capacity);
    PlacedFound(RunFrom(c', ops, capacity), dest, UsedSince(c', ops, dest, capacity), capacity);
  }
}
