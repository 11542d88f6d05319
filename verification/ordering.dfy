/** Python's `sorted`: a stable sort by a key, and the ascending list of a set of strings. */
module Ordering {

  ghost predicate TotalOrder<K(!new)>(leq: (K, K) -> bool) {
    && (forall a, b :: leq(a, b) || leq(b, a))
    && (forall a, b :: leq(a, b) && leq(b, a) ==> a == b)
    && (forall a, b, c :: leq(a, b) && leq(b, c) ==> leq(a, c))
  }

  // ---------------------------------------------------------------- sorted(s, key=key)

  /** x put before the first element whose key is not smaller. */
  function Insert<T, K>(x: T, s: seq<T>, key: T -> K, leq: (K, K) -> bool): seq<T> {
    if s == [] || leq(key(x), key(s[0])) then [x] + s else [s[0]] + Insert(x, s[1..], key, leq)
  }

  function Sort<T, K>(s: seq<T>, key: T -> K, leq: (K, K) -> bool): seq<T> {
    if s == [] then [] else Insert(s[0], Sort(s[1..], key, leq), key, leq)
  }

  ghost predicate Ordered<T, K>(s: seq<T>, key: T -> K, leq: (K, K) -> bool) {
    forall i, j :: 0 <= i < j < |s| ==> leq(key(s[i]), key(s[j]))
  }

  /** The elements with key k, in their order in s. */
  function WithKey<T, K(==)>(s: seq<T>, key: T -> K, k: K): seq<T> {
    if s == [] then [] else (if key(s[0]) == k then [s[0]] else []) + WithKey(s[1..], key, k)
  }

  lemma WithKeyCons<T, K(!new)>(x: T, s: seq<T>, key: T -> K, k: K)
    ensures WithKey([x] + s, key, k) == (if key(x) == k then [x] else []) + WithKey(s, key, k)
  {
    assert ([x] + s)[1..] == s;
  }

  lemma {:induction false} InsertElements<T, K(!new)>(x: T, s: seq<T>, key: T -> K, leq: (K, K) -> bool)
    ensures multiset(Insert(x, s, key, leq)) == multiset(s) + multiset{x}
  {
    if s != [] && !leq(key(x), key(s[0])) {
      InsertElements(x, s[1..], key, leq);
      assert s == [s[0]] + s[1..];
    }
  }

  lemma {:induction false} InsertStable<T, K(!new)>(x: T, s: seq<T>, key: T -> K, leq: (K, K) -> bool, k: K)
    requires TotalOrder(leq)
    ensures WithKey(Insert(x, s, key, leq), key, k) == (if key(x) == k then [x] else []) + WithKey(s, key, k)
  {
    if s != [] && !leq(key(x), key(s[0])) {
      InsertStable(x, s[1..], key, leq, k);
      WithKeyCons(s[0], Insert(x, s[1..], key, leq), key, k);
    } else {
      WithKeyCons(x, s, key, k);
    }
  }

  lemma {:induction false} InsertOrdered<T, K(!new)>(x: T, s: seq<T>, key: T -> K, leq: (K, K) -> bool)
    requires TotalOrder(leq) && Ordered(s, key, leq)
    ensures Ordered(Insert(x, s, key, leq), key, leq)
  {
    if s != [] && !leq(key(x), key(s[0])) {
      var r := Insert(x, s[1..], key, leq);
      InsertOrdered(x, s[1..], key, leq);
      InsertElements(x, s[1..], key, leq);
      forall i | 0 <= i < |r| ensures leq(key(s[0]), key(r[i])) {
        assert r[i] in multiset(s[1..]) + multiset{x};
      }
    }
  }

  /** A sort orders the elements, loses none, and keeps the order of those with equal keys. */
  lemma {:induction false} SortIsStable<T, K(!new)>(s: seq<T>, key: T -> K, leq: (K, K) -> bool)
    requires TotalOrder(leq)
    ensures Ordered(Sort(s, key, leq), key, leq)
    ensures multiset(Sort(s, key, leq)) == multiset(s) && |Sort(s, key, leq)| == |s|
    ensures forall k :: WithKey(Sort(s, key, leq), key, k) == WithKey(s, key, k)
  {
    if s != [] {
      var r := Sort(s[1..], key, leq);
      SortIsStable(s[1..], key, leq);
      InsertOrdered(s[0], r, key, leq);
      InsertElements(s[0], r, key, leq);
      assert s == [s[0]] + s[1..];
      assert |multiset(Sort(s, key, leq))| == |multiset(s)|;
      forall k ensures WithKey(Sort(s, key, leq), key, k) == WithKey(s, key, k) {
        InsertStable(s[0], r, key, leq, k);
      }
    }
  }

  lemma {:induction false} WithKeyFinds<T, K(!new)>(s: seq<T>, key: T -> K, i: nat)
    requires i < |s|
    ensures WithKey(s, key, key(s[i])) != []
  {
    if i > 0 {
      WithKeyFinds(s[1..], key, i - 1);
    }
  }

  lemma {:induction false} WithKeyLast<T, K(!new)>(s: seq<T>, x: T, key: T -> K, k: K)
    ensures WithKey(s + [x], key, k) == WithKey(s, key, k) + (if key(x) == k then [x] else [])
  {
    if s == [] {
      assert s + [x] == [x] && [x][1..] == [];
    } else {
      assert (s + [x])[1..] == s[1..] + [x];
      WithKeyLast(s[1..], x, key, k);
    }
  }

  /** The elements with key k are all of them and nothing else. */
  lemma {:induction false} WithKeyIs<T, K(!new)>(s: seq<T>, key: T -> K, k: K)
    ensures forall x :: x in WithKey(s, key, k) <==> x in s && key(x) == k
  {
    if s != [] {
      WithKeyIs(s[1..], key, k);
    }
  }

  lemma HeadIsLeast<T, K(!new)>(a: seq<T>, b: seq<T>, key: T -> K, leq: (K, K) -> bool)
    requires TotalOrder(leq) && Ordered(b, key, leq)
    requires a != []
    requires forall k :: WithKey(a, key, k) == WithKey(b, key, k)
    ensures b != [] && leq(key(b[0]), key(a[0]))
  {
    WithKeyFinds(a, key, 0);
    var x := WithKey(b, key, key(a[0]))[0];
    WithKeyIs(b, key, key(a[0]));
    assert x in b && key(x) == key(a[0]);
    var i :| 0 <= i < |b| && b[i] == x;
    assert i == 0 || leq(key(b[0]), key(b[i]));
  }

  /** There is only one ordered, stable rearrangement. */
  lemma {:induction false} OrderedStableUnique<T, K(!new)>(a: seq<T>, b: seq<T>, key: T -> K, leq: (K, K) -> bool)
    requires TotalOrder(leq) && Ordered(a, key, leq) && Ordered(b, key, leq)
    requires forall k :: WithKey(a, key, k) == WithKey(b, key, k)
    ensures a == b
  {
    if a == [] {
      if b != [] {
        HeadIsLeast(b, a, key, leq);
      }
    } else {
      HeadIsLeast(a, b, key, leq);
      HeadIsLeast(b, a, key, leq);
      assert WithKey(a, key, key(a[0]))[0] == a[0] && WithKey(b, key, key(a[0]))[0] == b[0];
      forall k ensures WithKey(a[1..], key, k) == WithKey(b[1..], key, k) {
        assert WithKey(a, key, k) == WithKey(b, key, k);
        assert WithKey(a, key, k) == (if key(a[0]) == k then [a[0]] else []) + WithKey(a[1..], key, k);
        assert WithKey(b, key, k) == (if key(a[0]) == k then [a[0]] else []) + WithKey(b[1..], key, k);
        SamePrefix(if key(a[0]) == k then [a[0]] else [], WithKey(a[1..], key, k), WithKey(b[1..], key, k));
      }
      OrderedStableUnique(a[1..], b[1..], key, leq);
      assert a == [a[0]] + a[1..] && b == [b[0]] + b[1..];
    }
  }

  lemma SamePrefix<T>(p: seq<T>, a: seq<T>, b: seq<T>)
    requires p + a == p + b
    ensures a == b
  {
    assert (p + a)[|p|..] == a && (p + b)[|p|..] == b;
  }

  /** No two positions have the same key. */
  ghost predicate DistinctKeys<T, K>(s: seq<T>, key: T -> K) {
    forall i, j :: 0 <= i < j < |s| ==> key(s[i]) != key(s[j])
  }

  lemma LeastInside<T, K(!new)>(a: seq<T>, x: T, key: T -> K, leq: (K, K) -> bool)
    requires TotalOrder(leq) && Ordered(a, key, leq) && x in a
    ensures leq(key(a[0]), key(x))
  {
    var i :| 0 <= i < |a| && a[i] == x;
    assert i == 0 || leq(key(a[0]), key(a[i]));
  }

  /** Elements with equal keys are equal. */
  ghost predicate KeyDetermines<T, K>(s: seq<T>, key: T -> K) {
    forall i, j :: 0 <= i < |s| && 0 <= j < |s| && key(s[i]) == key(s[j]) ==> s[i] == s[j]
  }

  lemma KeyDeterminesInside<T, K>(s: seq<T>, key: T -> K, x: T, y: T)
    requires KeyDetermines(s, key) && x in s && y in s && key(x) == key(y)
    ensures x == y
  {
    var i :| 0 <= i < |s| && s[i] == x;
    var j :| 0 <= j < |s| && s[j] == y;
  }

  lemma SameHead<T, K(!new)>(a: seq<T>, b: seq<T>, key: T -> K, leq: (K, K) -> bool)
    requires TotalOrder(leq) && Ordered(a, key, leq) && Ordered(b, key, leq)
    requires multiset(a) == multiset(b) && KeyDetermines(a, key) && a != [] && b != []
    ensures a[0] == b[0]
  {
    assert a[0] in multiset(b) && b[0] in multiset(a);
    LeastInside(a, b[0], key, leq);
    LeastInside(b, a[0], key, leq);
    KeyDeterminesInside(a, key, a[0], b[0]);
  }

  lemma SameTail<T>(a: seq<T>, b: seq<T>)
    requires multiset(a) == multiset(b) && a != [] && b != [] && a[0] == b[0]
    ensures multiset(a[1..]) == multiset(b[1..])
  {
    assert a == [a[0]] + a[1..] && b == [b[0]] + b[1..];
    assert multiset(a) == multiset{a[0]} + multiset(a[1..]);
    assert multiset(b) == multiset{a[0]} + multiset(b[1..]);
    assert multiset(a[1..]) == multiset(a) - multiset{a[0]};
    assert multiset(b[1..]) == multiset(b) - multiset{a[0]};
  }

  /** Ordered lists of the same elements are equal when their keys determine them. */
  lemma {:induction false} OrderedElementsUnique<T(!new), K(!new)>(a: seq<T>, b: seq<T>, key: T -> K,
                                                                   leq: (K, K) -> bool)
    requires TotalOrder(leq) && Ordered(a, key, leq) && Ordered(b, key, leq)
    requires multiset(a) == multiset(b) && KeyDetermines(a, key)
    ensures a == b
  {
    assert |a| == |multiset(a)| && |b| == |multiset(b)|;
    if a != [] {
      SameHead(a, b, key, leq);
      SameTail(a, b);
      OrderedElementsUnique(a[1..], b[1..], key, leq);
      assert a == [a[0]] + a[1..] && b == [b[0]] + b[1..];
    }
  }

  lemma DistinctKeysOfMultiset<T(!new), K(!new)>(a: seq<T>, b: seq<T>, key: T -> K)
    requires multiset(a) == multiset(b) && DistinctKeys(a, key)
    ensures DistinctKeys(b, key)
  {
    forall i, j | 0 <= i < j < |b| ensures key(b[i]) != key(b[j]) {
      if key(b[i]) == key(b[j]) {
        assert b[i] in multiset(a) && b[j] in multiset(a);
        var p :| 0 <= p < |a| && a[p] == b[i];
        var q :| 0 <= q < |a| && a[q] == b[j];
        assert p == q;
        TwoOf(b, i, j);
        OneOf(a, key, p);
      }
    }
  }

  lemma TwoOf<T>(s: seq<T>, i: int, j: int)
    requires 0 <= i < j < |s| && s[i] == s[j]
    ensures multiset(s)[s[i]] >= 2
  {
    assert s == s[..j] + s[j..];
    assert s[i] in s[..j] && s[j] in s[j..];
  }

  lemma OneOf<T, K>(s: seq<T>, key: T -> K, p: int)
    requires 0 <= p < |s| && DistinctKeys(s, key)
    ensures multiset(s)[s[p]] == 1
  {
    assert s == s[..p] + ([s[p]] + s[p + 1..]);
    assert s[p] !in s[..p] && s[p] !in s[p + 1..];
  }

  lemma KeyDeterminesOfMultiset<T(!new), K(!new)>(a: seq<T>, b: seq<T>, key: T -> K)
    requires multiset(a) == multiset(b) && KeyDetermines(a, key)
    ensures KeyDetermines(b, key)
  {
    forall i, j | 0 <= i < |b| && 0 <= j < |b| && key(b[i]) == key(b[j]) ensures b[i] == b[j] {
      assert b[i] in multiset(a) && b[j] in multiset(a);
      KeyDeterminesInside(a, key, b[i], b[j]);
    }
  }

  /** When keys determine the elements, the sort does not depend on their order. */
  lemma SortOfSameElements<T(!new), K(!new)>(a: seq<T>, b: seq<T>, key: T -> K, leq: (K, K) -> bool)
    requires TotalOrder(leq) && multiset(a) == multiset(b) && KeyDetermines(a, key)
    ensures Sort(a, key, leq) == Sort(b, key, leq)
  {
    SortIsStable(a, key, leq);
    SortIsStable(b, key, leq);
    KeyDeterminesOfMultiset(a, Sort(a, key, leq), key);
    OrderedElementsUnique(Sort(a, key, leq), Sort(b, key, leq), key, leq);
  }

  // ---------------------------------------------------------------- rearranging

  /** [f(x) for x in s] */
  function Map<T, U>(s: seq<T>, f: T -> U): seq<U> {
    seq(|s|, i requires 0 <= i < |s| => f(s[i]))
  }

  lemma MapConcat<T, U>(a: seq<T>, b: seq<T>, f: T -> U)
    ensures Map(a + b, f) == Map(a, f) + Map(b, f)
  {
  }

  /** s without position i. */
  function Drop<T>(s: seq<T>, i: nat): seq<T>
    requires i < |s|
  {
    s[..i] + s[i + 1..]
  }

  lemma DropElements<T>(s: seq<T>, i: nat)
    requires i < |s|
    ensures multiset(Drop(s, i)) == multiset(s) - multiset{s[i]}
  {
    assert s == s[..i] + [s[i]] + s[i + 1..];
  }

  lemma MapDrop<T, U>(s: seq<T>, f: T -> U, i: nat)
    requires i < |s|
    ensures multiset(Map(s, f)) == multiset(Map(Drop(s, i), f)) + multiset{f(s[i])}
  {
    assert s == s[..i] + [s[i]] + s[i + 1..];
    MapConcat(s[..i] + [s[i]], s[i + 1..], f);
    MapConcat(s[..i], [s[i]], f);
    MapConcat(s[..i], s[i + 1..], f);
    assert Map([s[i]], f) == [f(s[i])];
  }

  /** Rearranged elements have rearranged images. */
  lemma {:induction false} MapElements<T(!new), U>(a: seq<T>, b: seq<T>, f: T -> U)
    requires multiset(a) == multiset(b)
    ensures multiset(Map(a, f)) == multiset(Map(b, f))
    decreases |a|
  {
    assert |a| == |multiset(a)| && |b| == |multiset(b)|;
    if a != [] {
      assert a[0] in multiset(b);
      var i :| 0 <= i < |b| && b[i] == a[0];
      DropElements(a, 0);
      DropElements(b, i);
      MapElements(Drop(a, 0), Drop(b, i), f);
      MapDrop(a, f, 0);
      MapDrop(b, f, i);
    }
  }

  // ---------------------------------------------------------------- strings, by code point

  predicate StringLeq(a: string, b: string) {
    a == [] || (b != [] && (a[0] < b[0] || (a[0] == b[0] && StringLeq(a[1..], b[1..]))))
  }

  /** a is a beginning of b, or the first characters that differ do so in its favour. */
  lemma {:induction false} StringLeqIff(a: string, b: string)
    ensures StringLeq(a, b) <==> a <= b || exists i :: 0 <= i < |a| && i < |b| && a[..i] == b[..i] && a[i] < b[i]
  {
    if a != [] && b != [] {
      StringLeqIff(a[1..], b[1..]);
      if a[0] == b[0] {
        if a <= b {
          assert a[1..] <= b[1..];
        }
        if a[1..] <= b[1..] {
          assert a == [a[0]] + a[1..] && b == [b[0]] + b[1..];
        }
        if i: nat :| i < |a| && i < |b| && a[..i] == b[..i] && a[i] < b[i] {
          assert a[1..][..i - 1] == a[..i][1..] && b[1..][..i - 1] == b[..i][1..];
          assert a[1..][i - 1] < b[1..][i - 1];
        }
        if i: nat :| i < |a[1..]| && i < |b[1..]| && a[1..][..i] == b[1..][..i] && a[1..][i] < b[1..][i] {
          assert a[..i + 1] == [a[0]] + a[1..][..i] && b[..i + 1] == [b[0]] + b[1..][..i];
          assert a[i + 1] < b[i + 1];
        }
      } else {
        assert a[..0] == b[..0];
        assert forall i :: 0 < i < |a| && i < |b| && a[..i] == b[..i] ==> a[..i][0] == b[..i][0];
      }
    }
  }

  lemma {:induction false} StringTotal(a: string, b: string)
    ensures StringLeq(a, b) || StringLeq(b, a)
  {
    if a != [] && b != [] {
      StringTotal(a[1..], b[1..]);
    }
  }

  lemma {:induction false} StringAntisymmetric(a: string, b: string)
    requires StringLeq(a, b) && StringLeq(b, a)
    ensures a == b
  {
    if a != [] {
      StringAntisymmetric(a[1..], b[1..]);
      assert a == [a[0]] + a[1..] && b == [b[0]] + b[1..];
    }
  }

  lemma {:induction false} StringTransitive(a: string, b: string, c: string)
    requires StringLeq(a, b) && StringLeq(b, c)
    ensures StringLeq(a, c)
  {
    if a != [] && a[0] == b[0] == c[0] {
      StringTransitive(a[1..], b[1..], c[1..]);
    }
  }

  lemma StringOrder()
    ensures TotalOrder(StringLeq)
  {
    forall a, b ensures StringLeq(a, b) || StringLeq(b, a) { StringTotal(a, b); }
    forall a, b | StringLeq(a, b) && StringLeq(b, a) ensures a == b { StringAntisymmetric(a, b); }
    forall a, b, c | StringLeq(a, b) && StringLeq(b, c) ensures StringLeq(a, c) { StringTransitive(a, b, c); }
  }

  predicate IsLeast(s: set<string>, x: string) {
    x in s && forall y :: y in s ==> StringLeq(x, y)
  }

  lemma {:induction false} LeastExists(s: set<string>)
    requires s != {}
    ensures exists x :: IsLeast(s, x)
  {
    var z :| z in s;
    var t := s - {z};
    StringTotal(z, z);
    if t == {} {
      assert s == {z};
      assert IsLeast(s, z);
    } else {
      LeastExists(t);
      var x :| IsLeast(t, x);
      StringTotal(x, z);
      var w := if StringLeq(x, z) then x else z;
      forall y | y in s ensures StringLeq(w, y) {
        if y in t && w == z {
          StringTransitive(z, x, y);
        }
      }
      assert IsLeast(s, w);
    }
  }

  /** min(s) */
  function Least(s: set<string>): (x: string)
    requires s != {}
    ensures IsLeast(s, x)
  {
    LeastExists(s);
    assert forall x, y :: IsLeast(s, x) && IsLeast(s, y) ==> x == y by {
      StringOrder();
    }
    var x :| x in s && IsLeast(s, x);
    x
  }

  /** sorted(s): every element once, ascending. */
  function Ascending(s: set<string>): (r: seq<string>)
    ensures forall x :: x in r <==> x in s
    ensures forall i, j :: 0 <= i < j < |r| ==> r[i] != r[j] && StringLeq(r[i], r[j])
  {
    if s == {} then [] else [Least(s)] + Ascending(s - {Least(s)})
  }
}
