/** The single-column sort of the list view. `Array.prototype.sort` is stable
    (section 23.1.3.30 of ECMA-262), so with a consistent comparator its result
    is fixed: the stable insertion sort below, stated for any strict order on
    keys. The list's comparator answers -1, 1 or 0 from `<` and `>` on the
    column's key, reversed for a descending sort: `Before` below. */
module Sorting {
  import Text

  /** A column value: no key at all (an unknown column: every comparison
      answers 0), a number (the status value) or a lower-cased string. */
  datatype SortKey = Unordered | Num(value: real) | Str(text: string)

  function Rank(k: SortKey): nat
  {
    match k
    case Unordered => 0
    case Num(_) => 1
    case Str(_) => 2
  }

  /** `a < b` on keys of one column; keys of different kinds never meet in one
      sort and are ordered by kind only to make the order total. */
  function KeyLess(a: SortKey, b: SortKey): bool
  {
    if a.Num? && b.Num? then a.value < b.value
    else if a.Str? && b.Str? then Text.StrLess(a.text, b.text)
    else Rank(a) < Rank(b)
  }

  lemma KeyLessIrreflexive(a: SortKey)
    ensures !KeyLess(a, a)
  {
    if a.Str? {
      Text.StrLessIrreflexive(a.text);
    }
  }

  lemma KeyLessTransitive(a: SortKey, b: SortKey, c: SortKey)
    requires KeyLess(a, b) && KeyLess(b, c)
    ensures KeyLess(a, c)
  {
    if a.Str? && b.Str? && c.Str? {
      Text.StrLessTransitive(a.text, b.text, c.text);
    }
  }

  /** Distinct keys are comparable, so equal-comparing keys are equal keys. */
  lemma KeyLessTotal(a: SortKey, b: SortKey)
    requires a != b
    ensures KeyLess(a, b) || KeyLess(b, a)
  {
    if a.Str? && b.Str? {
      Text.StrLessTotal(a.text, b.text);
    }
  }

  /** The comparator answers negative for (a, b): `a` must come before `b`. */
  predicate Before(desc: bool, a: SortKey, b: SortKey)
  {
    if desc then KeyLess(b, a) else KeyLess(a, b)
  }

  lemma BeforeTransitive(desc: bool, a: SortKey, b: SortKey, c: SortKey)
    requires Before(desc, a, b) && Before(desc, b, c)
    ensures Before(desc, a, c)
  {
    if desc {
      KeyLessTransitive(c, b, a);
    } else {
      KeyLessTransitive(a, b, c);
    }
  }

  lemma BeforeIrreflexive(desc: bool, a: SortKey)
    ensures !Before(desc, a, a)
  {
    KeyLessIrreflexive(a);
  }

  ghost predicate Irreflexive<K(!new)>(lt: (K, K) -> bool)
  {
    forall a :: !lt(a, a)
  }

  ghost predicate Transitive<K(!new)>(lt: (K, K) -> bool)
  {
    forall a, b, c :: lt(a, b) && lt(b, c) ==> lt(a, c)
  }

  /** `lt` is a strict order: irreflexive and transitive. */
  ghost predicate StrictOrder<K(!new)>(lt: (K, K) -> bool)
  {
    Irreflexive(lt) && Transitive(lt)
  }

  /** The column comparator's "strictly before" is a strict order, in both directions. */
  lemma BeforeIsStrictOrder(desc: bool)
    ensures StrictOrder((a, b) => Before(desc, a, b))
  {
    forall a ensures !Before(desc, a, a) {
      BeforeIrreflexive(desc, a);
    }
    forall a, b, c | Before(desc, a, b) && Before(desc, b, c) ensures Before(desc, a, c) {
      BeforeTransitive(desc, a, b, c);
    }
  }

  /** No element is followed by one whose key is strictly before its own. */
  ghost predicate Sorted<T, K>(s: seq<T>, key: T -> K, lt: (K, K) -> bool)
  {
    forall i, j :: 0 <= i < j < |s| ==> !lt(key(s[j]), key(s[i]))
  }

  /** The one-element contribution of `x` to the class of `k`. */
  function Pick<T, K(==)>(x: T, key: T -> K, k: K): seq<T>
  {
    if key(x) == k then [x] else []
  }

  /** The elements whose key is `k`, in order. */
  function KeyClass<T, K(==)>(s: seq<T>, key: T -> K, k: K): seq<T>
    decreases |s|
  {
    if |s| == 0 then [] else Pick(s[0], key, k) + KeyClass(s[1..], key, k)
  }

  lemma KeyClassCons<T, K>(x: T, s: seq<T>, key: T -> K, k: K)
    ensures KeyClass([x] + s, key, k) == Pick(x, key, k) + KeyClass(s, key, k)
  {
    assert ([x] + s)[0] == x;
    assert ([x] + s)[1..] == s;
  }

  /** Places `x` after every element whose key is not strictly after its own. */
  function Insert<T, K>(x: T, s: seq<T>, key: T -> K, lt: (K, K) -> bool): (r: seq<T>)
    ensures |r| == |s| + 1
    decreases |s|
  {
    if |s| == 0 then [x]
    else if lt(key(x), key(s[0])) then [x] + s
    else [s[0]] + Insert(x, s[1..], key, lt)
  }

  /** `sort` with the comparator `lt`: insert each element, in list order,
      into the sorted prefix before it. */
  function SortBy<T, K>(xs: seq<T>, key: T -> K, lt: (K, K) -> bool): (r: seq<T>)
    ensures |r| == |xs|
    decreases |xs|
  {
    if |xs| == 0 then []
    else Insert(xs[|xs| - 1], SortBy(xs[..|xs| - 1], key, lt), key, lt)
  }

  /** Insertion adds exactly the one element. */
  lemma {:induction false} InsertPermutes<T, K>(x: T, s: seq<T>, key: T -> K, lt: (K, K) -> bool)
    ensures multiset(Insert(x, s, key, lt)) == multiset(s) + multiset{x}
    decreases |s|
  {
    if |s| > 0 && !lt(key(x), key(s[0])) {
      InsertPermutes(x, s[1..], key, lt);
      assert s == [s[0]] + s[1..];
    }
  }

  /** The sort is a permutation of its input. */
  lemma {:induction false} SortByPermutes<T, K>(xs: seq<T>, key: T -> K, lt: (K, K) -> bool)
    ensures multiset(SortBy(xs, key, lt)) == multiset(xs)
    decreases |xs|
  {
    if |xs| > 0 {
      var init := xs[..|xs| - 1];
      SortByPermutes(init, key, lt);
      InsertPermutes(xs[|xs| - 1], SortBy(init, key, lt), key, lt);
      assert xs == init + [xs[|xs| - 1]];
    }
  }

  lemma SortedTail<T, K>(s: seq<T>, key: T -> K, lt: (K, K) -> bool)
    requires |s| > 0 && Sorted(s, key, lt)
    ensures Sorted(s[1..], key, lt)
  {
    var tail := s[1..];
    forall i, j | 0 <= i < j < |tail| ensures !lt(key(tail[j]), key(tail[i])) {
      assert tail[i] == s[i + 1] && tail[j] == s[j + 1];
    }
  }

  /** Insertion adds no element whose key is strictly before `b` when
      neither `x` nor `s` has one. */
  lemma {:induction false} InsertBounded<T, K>(x: T, s: seq<T>, key: T -> K, lt: (K, K) -> bool, b: K)
    requires !lt(key(x), b)
    requires forall i :: 0 <= i < |s| ==> !lt(key(s[i]), b)
    ensures forall i :: 0 <= i < |Insert(x, s, key, lt)| ==> !lt(key(Insert(x, s, key, lt)[i]), b)
    decreases |s|
  {
    if |s| > 0 && !lt(key(x), key(s[0])) {
      InsertBounded(x, s[1..], key, lt, b);
    }
  }

  lemma {:induction false} InsertSorted<T, K(!new)>(x: T, s: seq<T>, key: T -> K, lt: (K, K) -> bool)
    requires StrictOrder(lt) && Sorted(s, key, lt)
    ensures Sorted(Insert(x, s, key, lt), key, lt)
    decreases |s|
  {
    var r := Insert(x, s, key, lt);
    if |s| == 0 {
    } else if lt(key(x), key(s[0])) {
      forall i, j | 0 <= i < j < |r| ensures !lt(key(r[j]), key(r[i])) {
        if i == 0 {
          var y := s[j - 1];
          var first := s[0];
          assert r[j] == y;
          assert lt(key(y), key(x)) ==> lt(key(y), key(first));
        } else {
          assert r[i] == s[i - 1] && r[j] == s[j - 1];
        }
      }
    } else {
      var tail := s[1..];
      SortedTail(s, key, lt);
      InsertSorted(x, tail, key, lt);
      var rest := Insert(x, tail, key, lt);
      assert r == [s[0]] + rest;
      InsertBounded(x, tail, key, lt, key(s[0]));
      forall i, j | 0 <= i < j < |r| ensures !lt(key(r[j]), key(r[i])) {
        if i == 0 {
          assert r[j] == rest[j - 1];
        } else {
          assert r[i] == rest[i - 1] && r[j] == rest[j - 1];
        }
      }
    }
  }

  /** The sorted result is ordered by the comparator. */
  lemma {:induction false} SortBySorted<T, K(!new)>(xs: seq<T>, key: T -> K, lt: (K, K) -> bool)
    requires StrictOrder(lt)
    ensures Sorted(SortBy(xs, key, lt), key, lt)
    decreases |xs|
  {
    if |xs| > 0 {
      SortBySorted(xs[..|xs| - 1], key, lt);
      InsertSorted(xs[|xs| - 1], SortBy(xs[..|xs| - 1], key, lt), key, lt);
    }
  }

  lemma {:induction false} KeyClassAppend<T, K>(a: seq<T>, b: seq<T>, key: T -> K, k: K)
    ensures KeyClass(a + b, key, k) == KeyClass(a, key, k) + KeyClass(b, key, k)
    decreases |a|
  {
    if |a| == 0 {
      assert a + b == b;
    } else {
      var t := a[1..];
      assert a == [a[0]] + t;
      assert a + b == [a[0]] + (t + b);
      KeyClassAppend(t, b, key, k);
      KeyClassCons(a[0], t + b, key, k);
      KeyClassCons(a[0], t, key, k);
    }
  }

  lemma {:induction false} KeyClassNone<T, K>(s: seq<T>, key: T -> K, k: K)
    requires forall i :: 0 <= i < |s| ==> key(s[i]) != k
    ensures KeyClass(s, key, k) == []
    decreases |s|
  {
    if |s| > 0 {
      KeyClassNone(s[1..], key, k);
    }
  }

  lemma {:induction false} KeyClassAll<T, K>(s: seq<T>, key: T -> K, k: K)
    requires forall i :: 0 <= i < |s| ==> key(s[i]) == k
    ensures KeyClass(s, key, k) == s
    decreases |s|
  {
    if |s| > 0 {
      KeyClassAll(s[1..], key, k);
      assert s == [s[0]] + s[1..];
    }
  }

  /** Inserting `x` into a sorted list appends it to its own key class and
      leaves every other class as it was. */
  lemma {:induction false} InsertStable<T, K(!new)>(x: T, s: seq<T>, key: T -> K, lt: (K, K) -> bool, k: K)
    requires Irreflexive(lt) && Sorted(s, key, lt)
    ensures KeyClass(Insert(x, s, key, lt), key, k) == KeyClass(s, key, k) + Pick(x, key, k)
    decreases |s|
  {
    if |s| == 0 {
      KeyClassCons(x, [], key, k);
    } else if lt(key(x), key(s[0])) {
      assert Insert(x, s, key, lt) == [x] + s;
      KeyClassCons(x, s, key, k);
      if key(x) == k {
        forall i | 0 <= i < |s| ensures key(s[i]) != k {
          if i > 0 {
            assert !lt(key(s[i]), key(s[0]));
          }
        }
        KeyClassNone(s, key, k);
      }
    } else {
      var tail := s[1..];
      assert s == [s[0]] + tail;
      SortedTail(s, key, lt);
      InsertStable(x, tail, key, lt, k);
      var rest := Insert(x, tail, key, lt);
      assert Insert(x, s, key, lt) == [s[0]] + rest;
      KeyClassCons(s[0], rest, key, k);
      KeyClassCons(s[0], tail, key, k);
      var p, c, q := Pick(s[0], key, k), KeyClass(tail, key, k), Pick(x, key, k);
      assert p + (c + q) == (p + c) + q;
    }
  }

  /** Stability: the sort keeps, for every key, the elements with that key in
      their original order. */
  lemma {:induction false} SortByStable<T, K(!new)>(xs: seq<T>, key: T -> K, lt: (K, K) -> bool, k: K)
    requires StrictOrder(lt)
    ensures KeyClass(SortBy(xs, key, lt), key, k) == KeyClass(xs, key, k)
    decreases |xs|
  {
    if |xs| > 0 {
      var init := xs[..|xs| - 1];
      var last := xs[|xs| - 1];
      var sortedInit := SortBy(init, key, lt);
      assert SortBy(xs, key, lt) == Insert(last, sortedInit, key, lt);
      SortByStable(init, key, lt, k);
      SortBySorted(init, key, lt);
      InsertStable(last, sortedInit, key, lt, k);
      assert xs == init + [last];
      KeyClassAppend(init, [last], key, k);
      KeyClassCons(last, [], key, k);
      assert [last] + [] == [last];
    }
  }

  /** When every element has the same key (an unknown column), the sort leaves
      the list as it was. */
  lemma SortByConstantKey<T, K(!new)>(xs: seq<T>, key: T -> K, lt: (K, K) -> bool, k: K)
    requires StrictOrder(lt)
    requires forall i :: 0 <= i < |xs| ==> key(xs[i]) == k
    ensures SortBy(xs, key, lt) == xs
  {
    var r := SortBy(xs, key, lt);
    SortByStable(xs, key, lt, k);
    KeyClassAll(xs, key, k);
    SortByPermutes(xs, key, lt);
    forall i | 0 <= i < |r| ensures key(r[i]) == k {
      assert r[i] in multiset(xs);
    }
    KeyClassAll(r, key, k);
  }
}
