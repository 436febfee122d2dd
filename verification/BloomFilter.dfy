/** The sliding duplicate filter (src/gossip/bloom.rs): two Bloom filters that take turns. */
module BloomFilter {
  import opened Core

  /** The bit positions an id is hashed to. Every new filter draws its own, unknown, hash functions. */
  type Hash = Key -> set<nat>

  datatype Bloom = Bloom(hash: Hash, bits: set<nat>)

  function EmptyBloom(h: Hash): Bloom
  {
    Bloom(h, {})
  }

  predicate BloomCheck(b: Bloom, id: Key)
  {
    b.hash(id) <= b.bits
  }

  function BloomSet(b: Bloom, id: Key): Bloom
  {
    b.(bits := b.bits + b.hash(id))
  }

  /** The filter with its history: all fresh insertions in order, and where the two windows start in it. */
  datatype Filter = Filter(current: Bloom, previous: Bloom, insertCount: nat,
                           inserted: seq<Key>, previousStart: nat, currentStart: nat)

  function NewFilter(h: Hash, h': Hash): Filter
  {
    Filter(EmptyBloom(h), EmptyBloom(h'), 0, [], 0, 0)
  }

  /** `check`: probably seen. */
  predicate Seen(f: Filter, id: Key)
  {
    BloomCheck(f.current, id) || BloomCheck(f.previous, id)
  }

  /** `rotate_if_full`; `h` are the hash functions a replacement filter would draw. */
  function Rotated(f: Filter, capacity: nat, h: Hash): Filter
  {
    if f.insertCount >= capacity
    then f.(current := EmptyBloom(h), previous := f.current, insertCount := 0,
            previousStart := f.currentStart, currentStart := |f.inserted|)
    else f
  }

  /** `add`, and the state change of `check_and_add`. */
  function Added(f: Filter, capacity: nat, id: Key, h: Hash): Filter
  {
    if Seen(f, id) then f
    else
      var r := Rotated(f, capacity, h);
      r.(current := BloomSet(r.current, id), insertCount := r.insertCount + 1, inserted := r.inserted + [id])
  }

  /** Ids per window: the capacity, but at least one (a filter of capacity 0 rotates at every insertion). */
  function WindowSize(capacity: nat): nat
  {
    Max(capacity, 1)
  }

  ghost function BitsOf(h: Hash, ids: seq<Key>): set<nat>
  {
    if ids == [] then {} else BitsOf(h, ids[..|ids| - 1]) + h(ids[|ids| - 1])
  }

  /** The two filters hold exactly the last, possibly partial, block of fresh ids and the full block before it. */
  ghost predicate Windowed(f: Filter, capacity: nat)
  {
    && f.previousStart <= f.currentStart <= |f.inserted|
    && f.insertCount == |f.inserted| - f.currentStart <= WindowSize(capacity)
    && (f.inserted != [] ==> f.currentStart < |f.inserted|)
    && f.currentStart - f.previousStart == (if f.currentStart == 0 then 0 else WindowSize(capacity))
    && f.current.bits == BitsOf(f.current.hash, f.inserted[f.currentStart..])
    && f.previous.bits == BitsOf(f.previous.hash, f.inserted[f.previousStart..f.currentStart])
  }

  class SlidingBloomFilter {
    const capacity: nat
    var current: Bloom
    var previous: Bloom
    var insertCount: nat
    ghost var inserted: seq<Key>
    ghost var previousStart: nat
    ghost var currentStart: nat

    ghost function View(): Filter
      reads this
    {
      Filter(current, previous, insertCount, inserted, previousStart, currentStart)
    }

    constructor (capacity: nat, h: Hash, h': Hash)
      ensures this.capacity == capacity && View() == NewFilter(h, h')
    {
      this.capacity := capacity;
      current, previous, insertCount := EmptyBloom(h), EmptyBloom(h'), 0;
      inserted, previousStart, currentStart := [], 0, 0;
    }

    method Check(id: Key) returns (seen: bool)
      ensures seen == Seen(View(), id)
    {
      seen := BloomCheck(current, id) || BloomCheck(previous, id);
    }

    method RotateIfFull(h: Hash)
      modifies this
      ensures View() == Rotated(old(View()), capacity, h)
    {
      if insertCount >= capacity {
        previous := current;
        current := EmptyBloom(h);
        insertCount := 0;
        previousStart, currentStart := currentStart, |inserted|;
      }
    }

    method Add(id: Key, h: Hash)
      modifies this
      ensures View() == Added(old(View()), capacity, id, h)
    {
      var seen := Check(id);
      if !seen {
        RotateIfFull(h);
        current := BloomSet(current, id);
        insertCount := insertCount + 1;
        inserted := inserted + [id];
      }
    }

    method CheckAndAdd(id: Key, h: Hash) returns (seen: bool)
      modifies this
      ensures seen == Seen(old(View()), id)
      ensures View() == Added(old(View()), capacity, id, h)
    {
      if BloomCheck(current, id) || BloomCheck(previous, id) { return true; }
      RotateIfFull(h);
      current := BloomSet(current, id);
      insertCount := insertCount + 1;
      inserted := inserted + [id];
      return false;
    }
  }

  // ---- One step -----------------------------------------------------------------------------------

  lemma {:induction false} BitsContain(h: Hash, ids: seq<Key>, i: nat)
    requires i < |ids|
    ensures h(ids[i]) <= BitsOf(h, ids)
  {
    if i == |ids| - 1 {
    } else {
      BitsContain(h, ids[..|ids| - 1], i);
    }
  }

  /** Every bit position of `id` is one of some id of `ids`. */
  ghost predicate Covered(h: Hash, id: Key, ids: seq<Key>)
  {
    forall x :: x in h(id) ==> exists i :: 0 <= i < |ids| && x in h(ids[i])
  }

  lemma {:induction false} BitsOfMeaning(h: Hash, ids: seq<Key>, x: nat)
    ensures x in BitsOf(h, ids) <==> exists i :: 0 <= i < |ids| && x in h(ids[i])
  {
    if ids == [] {
    } else {
      var pre, last := ids[..|ids| - 1], |ids| - 1;
      BitsOfMeaning(h, pre, x);
      if x in BitsOf(h, pre) {
        var i :| 0 <= i < |pre| && x in h(pre[i]);
        assert x in h(ids[i]);
      } else if i :| 0 <= i < |ids| && x in h(ids[i]) {
        assert i < last ==> x in h(pre[i]);
      }
    }
  }

  lemma CoveredIff(h: Hash, id: Key, ids: seq<Key>)
    ensures h(id) <= BitsOf(h, ids) <==> Covered(h, id, ids)
  {
    forall x | x in h(id) ensures x in BitsOf(h, ids) <==> exists i :: 0 <= i < |ids| && x in h(ids[i]) {
      BitsOfMeaning(h, ids, x);
    }
  }

  /** Exactly when an id is reported seen, and otherwise recorded: its bit positions are covered by the ids of the
      current window, or of the previous one, under that window's hash functions. */
  lemma RecordedIffUncovered(f: Filter, capacity: nat, id: Key, h: Hash)
    requires Windowed(f, capacity)
    ensures var seen := Covered(f.current.hash, id, f.inserted[f.currentStart..])
                        || Covered(f.previous.hash, id, f.inserted[f.previousStart..f.currentStart]);
            && (Seen(f, id) <==> seen)
            && (seen ==> Added(f, capacity, id, h) == f)
            && (!seen ==> Added(f, capacity, id, h).inserted == f.inserted + [id])
  {
    CoveredIff(f.current.hash, id, f.inserted[f.currentStart..]);
    CoveredIff(f.previous.hash, id, f.inserted[f.previousStart..f.currentStart]);
    hide Covered, BitsOf;
  }

  lemma AddedKeepsWindows(f: Filter, capacity: nat, id: Key, h: Hash)
    requires Windowed(f, capacity)
    ensures Windowed(Added(f, capacity, id, h), capacity)
  {
    if !Seen(f, id) {
      var r := Rotated(f, capacity, h);
      var f' := Added(f, capacity, id, h);
      var w := f'.inserted[f'.currentStart..];
      assert w[..|w| - 1] == f.inserted[r.currentStart..];
      assert f'.inserted[f'.previousStart..f'.currentStart] == f.inserted[r.previousStart..r.currentStart];
    }
  }

  lemma WindowIsSeen(f: Filter, capacity: nat, i: nat)
    requires Windowed(f, capacity) && f.previousStart <= i < |f.inserted|
    ensures Seen(f, f.inserted[i])
  {
    if i >= f.currentStart {
      BitsContain(f.current.hash, f.inserted[f.currentStart..], i - f.currentStart);
    } else {
      BitsContain(f.previous.hash, f.inserted[f.previousStart..f.currentStart], i - f.previousStart);
    }
  }

  // ---- Runs ---------------------------------------------------------------------------------------

  datatype Insertion = Insertion(id: Key, h: Hash)

  ghost function Run(capacity: nat, start: Filter, ins: seq<Insertion>): Filter
  {
    if ins == [] then start
    else Added(Run(capacity, start, ins[..|ins| - 1]), capacity, ins[|ins| - 1].id, ins[|ins| - 1].h)
  }

  /** Ids inserted close together are different: a filter never takes for fresh what it still remembers. */
  ghost predicate NearbyDistinct(f: Filter, capacity: nat)
  {
    forall i, j :: 0 <= i < j < |f.inserted| && j - i <= WindowSize(capacity) + 1 ==> f.inserted[i] != f.inserted[j]
  }

  ghost predicate FilterInv(f: Filter, capacity: nat)
  {
    Windowed(f, capacity) && NearbyDistinct(f, capacity)
  }

  /** No false negatives: an id is reported seen for at least the next `capacity` fresh insertions. */
  lemma SeenThroughCapacity(f: Filter, capacity: nat, i: nat)
    requires Windowed(f, capacity) && i < |f.inserted|
    requires |f.inserted| - 1 - i <= WindowSize(capacity)
    ensures Seen(f, f.inserted[i])
  {
    WindowIsSeen(f, capacity, i);
  }

  /** After twice the capacity the insertion is forgotten: both windows start later, so the id is reported seen
      only if the hashes of later ids happen to cover it. */
  lemma ForgottenAfterTwiceCapacity(f: Filter, capacity: nat, i: nat)
    requires Windowed(f, capacity) && i < |f.inserted|
    requires |f.inserted| - 1 - i >= 2 * WindowSize(capacity)
    ensures i < f.previousStart
    ensures var x := f.inserted[i];
            var current, previous := f.inserted[f.currentStart..], f.inserted[f.previousStart..f.currentStart];
            Seen(f, x) <==> f.current.hash(x) <= BitsOf(f.current.hash, current)
                            || f.previous.hash(x) <= BitsOf(f.previous.hash, previous)
  {
  }

  lemma AddedKeepsInv(f: Filter, capacity: nat, id: Key, h: Hash)
    requires FilterInv(f, capacity)
    ensures FilterInv(Added(f, capacity, id, h), capacity)
  {
    AddedKeepsWindows(f, capacity, id, h);
    var f' := Added(f, capacity, id, h);
    assert f'.inserted == if Seen(f, id) then f.inserted else f.inserted + [id];
    hide Added, Windowed, BitsOf;
    if !Seen(f, id) {
      forall i | 0 <= i < |f.inserted| && |f.inserted| - i <= WindowSize(capacity) + 1 ensures f.inserted[i] != id {
        SeenThroughCapacity(f, capacity, i);
      }
    }
  }

  /** In every run from a new filter, whatever hash functions are drawn, the invariant holds. */
  lemma {:induction false} RunKeepsInv(capacity: nat, h: Hash, h': Hash, ins: seq<Insertion>)
    ensures FilterInv(Run(capacity, NewFilter(h, h'), ins), capacity)
  {
    if ins == [] {
    } else {
      RunKeepsInv(capacity, h, h', ins[..|ins| - 1]);
      AddedKeepsInv(Run(capacity, NewFilter(h, h'), ins[..|ins| - 1]), capacity, ins[|ins| - 1].id, ins[|ins| - 1].h);
    }
  }

  /** The life of an insertion in any run: seen through the next `capacity` fresh insertions, in neither window
      after twice as many. */
  lemma RunRemembersThenForgets(capacity: nat, h: Hash, h': Hash, ins: seq<Insertion>, i: nat)
    requires i < |Run(capacity, NewFilter(h, h'), ins).inserted|
    ensures var f := Run(capacity, NewFilter(h, h'), ins);
            && (|f.inserted| - 1 - i <= WindowSize(capacity) ==> Seen(f, f.inserted[i]))
            && (|f.inserted| - 1 - i >= 2 * WindowSize(capacity) ==> i < f.previousStart)
  {
    var f := Run(capacity, NewFilter(h, h'), ins);
    RunKeepsInv(capacity, h, h', ins);
    if |f.inserted| - 1 - i <= WindowSize(capacity) { SeenThroughCapacity(f, capacity, i); }
    if |f.inserted| - 1 - i >= 2 * WindowSize(capacity) { ForgottenAfterTwiceCapacity(f, capacity, i); }
  }

  /** In every run, two fresh insertions of one id are separated by more than `capacity` insertions of other,
      mutually different, ids. */
  lemma RepeatsAreFarApart(capacity: nat, h: Hash, h': Hash, ins: seq<Insertion>, i: nat, j: nat)
    requires var ids := Run(capacity, NewFilter(h, h'), ins).inserted; i < j < |ids| && ids[i] == ids[j]
    ensures j - i - 1 > WindowSize(capacity)
    ensures var ids := Run(capacity, NewFilter(h, h'), ins).inserted;
            forall p, q :: i <= p < q <= i + WindowSize(capacity) + 1 ==> ids[p] != ids[q]
  {
    RunKeepsInv(capacity, h, h', ins);
    hide Run, Windowed;
  }
}
