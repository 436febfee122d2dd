/** The stable sort used by the router, the priority queue and the macro-merge backlog
    (`slice::sort_by_key`), with the characterisation its callers rely on. */
module StableSort {

  /** A sort key; `Infinite` stands for the `usize::MAX` that marks "no known distance". */
  datatype SortKey = Finite(n: int) | Infinite

  predicate Leq(a: SortKey, b: SortKey)
  {
    b.Infinite? || (a.Finite? && a.n <= b.n)
  }

  function Insert<T>(x: T, s: seq<T>, key: T -> SortKey): (r: seq<T>)
    ensures |r| == |s| + 1
  {
    if s == [] || Leq(key(x), key(s[0])) then [x] + s else [s[0]] + Insert(x, s[1..], key)
  }

  function Sort<T>(s: seq<T>, key: T -> SortKey): (r: seq<T>)
    ensures |r| == |s|
  {
    if s == [] then [] else Insert(s[0], Sort(s[1..], key), key)
  }

  ghost predicate Sorted<T>(s: seq<T>, key: T -> SortKey)
  {
    forall i, j :: 0 <= i < j < |s| ==> Leq(key(s[i]), key(s[j]))
  }

  /** The elements of `s` whose key is `k`, in order. */
  ghost function WithKey<T>(s: seq<T>, key: T -> SortKey, k: SortKey): seq<T>
  {
    if s == [] then []
    else (if key(s[0]) == k then [s[0]] else []) + WithKey(s[1..], key, k)
  }

  /** `r` is `s` sorted by key: ordered, a permutation, and elements with equal keys keep their order. */
  ghost predicate IsStableSort<T(!new)>(s: seq<T>, r: seq<T>, key: T -> SortKey)
  {
    && Sorted(r, key)
    && multiset(r) == multiset(s)
    && forall k :: WithKey(r, key, k) == WithKey(s, key, k)
  }

  lemma {:induction false} InsertPermutes<T>(x: T, s: seq<T>, key: T -> SortKey)
    ensures multiset(Insert(x, s, key)) == multiset([x] + s)
  {
    if s == [] || Leq(key(x), key(s[0])) {
    } else {
      InsertPermutes(x, s[1..], key);
      assert s == [s[0]] + s[1..];
    }
  }

  lemma {:induction false} InsertKeepsOrder<T>(x: T, s: seq<T>, key: T -> SortKey)
    requires Sorted(s, key)
    ensures Sorted(Insert(x, s, key), key)
  {
    var r := Insert(x, s, key);
    if s == [] || Leq(key(x), key(s[0])) {
      forall i, j | 0 <= i < j < |r| ensures Leq(key(r[i]), key(r[j])) {
        if i == 0 && j > 1 { assert Leq(key(s[0]), key(s[j - 1])); }
      }
    } else {
      var t := Insert(x, s[1..], key);
      InsertKeepsOrder(x, s[1..], key);
      InsertPermutes(x, s[1..], key);
      forall j | 0 <= j < |t| ensures Leq(key(s[0]), key(t[j])) {
        assert t[j] in multiset(t);
        assert t[j] in [x] + s[1..];
      }
      assert r == [s[0]] + t;
    }
  }

  lemma {:induction false} InsertStable<T>(x: T, s: seq<T>, key: T -> SortKey, k: SortKey)
    ensures WithKey(Insert(x, s, key), key, k) == WithKey([x] + s, key, k)
  {
    if s == [] || Leq(key(x), key(s[0])) {
    } else {
      var t := Insert(x, s[1..], key);
      InsertStable(x, s[1..], key, k);
      assert ([s[0]] + t)[1..] == t && ([x] + s)[1..] == s && ([x] + s[1..])[1..] == s[1..];
    }
  }

  /** The sort meets its specification. */
  lemma {:induction false} SortCorrect<T(!new)>(s: seq<T>, key: T -> SortKey)
    ensures IsStableSort(s, Sort(s, key), key)
  {
    if s == [] {
    } else {
      var t := Sort(s[1..], key);
      SortCorrect(s[1..], key);
      InsertPermutes(s[0], t, key);
      InsertKeepsOrder(s[0], t, key);
      assert s == [s[0]] + s[1..];
      forall k ensures WithKey(Sort(s, key), key, k) == WithKey(s, key, k) {
        InsertStable(s[0], t, key, k);
        assert ([s[0]] + t)[1..] == t;
        assert WithKey(t, key, k) == WithKey(s[1..], key, k);
      }
    }
  }

  lemma {:induction false} WithKeyNonEmpty<T>(s: seq<T>, key: T -> SortKey, k: SortKey)
    ensures WithKey(s, key, k) != [] <==> exists i :: 0 <= i < |s| && key(s[i]) == k
  {
    if s == [] {
    } else {
      WithKeyNonEmpty(s[1..], key, k);
      if exists i :: 0 <= i < |s| && key(s[i]) == k {
        var i :| 0 <= i < |s| && key(s[i]) == k;
        assert i == 0 || key(s[1..][i - 1]) == k;
      }
      if i :| 0 <= i < |s[1..]| && key(s[1..][i]) == k {
        assert key(s[i + 1]) == k;
      }
    }
  }

  lemma HeadKey<T(!new)>(r: seq<T>, q: seq<T>, key: T -> SortKey)
    requires r != [] && q != [] && Sorted(q, key)
    requires WithKey(r, key, key(r[0])) == WithKey(q, key, key(r[0]))
    ensures Leq(key(q[0]), key(r[0]))
  {
    WithKeyNonEmpty(q, key, key(r[0]));
    assert WithKey(r, key, key(r[0])) != [];
    var i :| 0 <= i < |q| && key(q[i]) == key(r[0]);
    assert i == 0 || Leq(key(q[0]), key(q[i]));
  }

  /** The specification determines the result: two ordered sequences whose equal-key runs agree are equal. */
  lemma {:induction false} StableSortUnique<T(!new)>(r: seq<T>, q: seq<T>, key: T -> SortKey)
    requires Sorted(r, key) && Sorted(q, key)
    requires forall k :: WithKey(r, key, k) == WithKey(q, key, k)
    ensures r == q
  {
    if r == [] || q == [] {
      if r != [] { assert WithKey(r, key, key(r[0])) != WithKey(q, key, key(r[0])); }
      if q != [] { assert WithKey(r, key, key(q[0])) != WithKey(q, key, key(q[0])); }
    } else {
      HeadKey(r, q, key);
      HeadKey(q, r, key);
      assert WithKey(r, key, key(r[0]))[0] == r[0];
      assert WithKey(q, key, key(q[0]))[0] == q[0];
      forall k ensures WithKey(r[1..], key, k) == WithKey(q[1..], key, k) {
        var h := if key(r[0]) == k then [r[0]] else [];
        assert WithKey(r[1..], key, k) == WithKey(r, key, k)[|h|..];
        assert WithKey(q[1..], key, k) == WithKey(q, key, k)[|h|..];
      }
      StableSortUnique(r[1..], q[1..], key);
      assert r == [r[0]] + r[1..] && q == [q[0]] + q[1..];
    }
  }

  /** Sorting an ordered sequence changes nothing. */
  lemma SortOfSorted<T(!new)>(s: seq<T>, key: T -> SortKey)
    requires Sorted(s, key)
    ensures Sort(s, key) == s
  {
    SortCorrect(s, key);
    StableSortUnique(Sort(s, key), s, key);
  }

  lemma {:induction false} InsertCongruence<T>(x: T, s: seq<T>, key: T -> SortKey, key': T -> SortKey)
    requires key(x) == key'(x) && forall y :: y in s ==> key(y) == key'(y)
    ensures Insert(x, s, key) == Insert(x, s, key')
  {
    if s == [] {
    } else {
      InsertCongruence(x, s[1..], key, key');
    }
  }

  /** Only the keys of the elements present matter. */
  lemma {:induction false} SortCongruence<T(!new)>(s: seq<T>, key: T -> SortKey, key': T -> SortKey)
    requires forall y :: y in s ==> key(y) == key'(y)
    ensures Sort(s, key) == Sort(s, key')
  {
    if s == [] {
    } else {
      SortCongruence(s[1..], key, key');
      SortCorrect(s[1..], key);
      forall y | y in Sort(s[1..], key) ensures key(y) == key'(y) {
        assert y in multiset(Sort(s[1..], key));
        assert y in multiset(s[1..]);
      }
      InsertCongruence(s[0], Sort(s[1..], key), key, key');
    }
  }

  // ---- Sorting a list of records by a part of them ------------------------------------------------

  ghost function Mapped<T, U>(s: seq<T>, f: T -> U): seq<U>
  {
    seq(|s|, i requires 0 <= i < |s| => f(s[i]))
  }

  ghost function Composed<T, U>(f: T -> U, key: U -> SortKey): T -> SortKey
  {
    (x: T) => key(f(x))
  }

  lemma MappedCons<T, U>(x: T, p: seq<T>, f: T -> U)
    ensures Mapped([x] + p, f) == [f(x)] + Mapped(p, f)
  {
  }

  lemma MappedTail<T, U>(p: seq<T>, f: T -> U)
    requires p != []
    ensures Mapped(p[1..], f) == Mapped(p, f)[1..] && Mapped(p, f)[0] == f(p[0]) && |Mapped(p, f)| == |p|
  {
  }

  lemma {:induction false} InsertMaps<T, U>(x: T, p: seq<T>, f: T -> U, key: U -> SortKey)
    ensures Mapped(Insert(x, p, Composed(f, key)), f) == Insert(f(x), Mapped(p, f), key)
  {
    if p == [] {
      MappedCons(x, p, f);
    } else {
      MappedTail(p, f);
      assert Composed(f, key)(x) == key(f(x)) && Composed(f, key)(p[0]) == key(f(p[0]));
      hide Mapped, Composed, Leq;
      if Leq(key(f(x)), key(f(p[0]))) {
        MappedCons(x, p, f);
      } else {
        InsertMaps(x, p[1..], f, key);
        MappedCons(p[0], Insert(x, p[1..], Composed(f, key)), f);
      }
    }
  }

  lemma {:induction false} SortMaps<T, U>(p: seq<T>, f: T -> U, key: U -> SortKey)
    ensures Mapped(Sort(p, Composed(f, key)), f) == Sort(Mapped(p, f), key)
  {
    if p == [] {
      assert Mapped(p, f) == [];
    } else {
      MappedTail(p, f);
      hide Mapped, Composed, Insert;
      SortMaps(p[1..], f, key);
      InsertMaps(p[0], Sort(p[1..], Composed(f, key)), f, key);
    }
  }

  lemma SortMembers<T(!new)>(p: seq<T>, key: T -> SortKey)
    ensures forall i :: 0 <= i < |p| ==> Sort(p, key)[i] in p
  {
    SortCorrect(p, key);
    hide Sort, WithKey;
    forall i | 0 <= i < |p| ensures Sort(p, key)[i] in p { assert Sort(p, key)[i] in multiset(Sort(p, key)); }
  }
}
