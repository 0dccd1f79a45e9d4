/** `Array.prototype.sort` with a comparator that orders elements by a key:
    the sort is stable, so elements whose keys tie keep their input order.
    Modelled as insertion sort, which is stable; the lemmas show that the
    result is a permutation, ordered, and keeps the order within each key. */
module Sorting {
  import opened Common

  /** `x` goes after every element it does not strictly precede. */
  function Insert<T, K>(x: T, t: seq<T>, key: T -> K, less: (K, K) -> bool): (r: seq<T>)
    ensures |r| == |t| + 1
  {
    if |t| == 0 || less(key(x), key(t[0])) then [x] + t
    else
      assert t == [t[0]] + t[1..];
      [t[0]] + Insert(x, t[1..], key, less)
  }

  /** The sorted copy of `s`. */
  function SortBy<T, K>(s: seq<T>, key: T -> K, less: (K, K) -> bool): (r: seq<T>)
    ensures |r| == |s|
  {
    if |s| == 0 then []
    else Insert(s[|s| - 1], SortBy(s[..|s| - 1], key, less), key, less)
  }

  lemma {:induction false} InsertPermutes<T, K>(x: T, t: seq<T>, key: T -> K, less: (K, K) -> bool)
    ensures multiset(Insert(x, t, key, less)) == multiset(t) + multiset{x}
    decreases |t|
  {
    if |t| > 0 && !less(key(x), key(t[0])) {
      assert t == [t[0]] + t[1..];
      InsertPermutes(x, t[1..], key, less);
    }
  }

  /** The sorted copy is a rearrangement of the input. */
  lemma {:induction false} SortByPermutes<T, K>(s: seq<T>, key: T -> K, less: (K, K) -> bool)
    ensures multiset(SortBy(s, key, less)) == multiset(s)
    decreases |s|
  {
    if |s| > 0 {
      var init := s[..|s| - 1];
      assert s == init + [s[|s| - 1]];
      SortByPermutes(init, key, less);
      InsertPermutes(s[|s| - 1], SortBy(init, key, less), key, less);
    }
  }

  /** No element comes after one whose key it strictly precedes. */
  predicate Sorted<T, K>(r: seq<T>, key: T -> K, less: (K, K) -> bool)
  {
    forall i, j :: 0 <= i < j < |r| ==> !less(key(r[j]), key(r[i]))
  }

  /** On the keys of the elements of `s`, `less` is a strict order. */
  ghost predicate StrictOrderOn<T, K>(s: seq<T>, key: T -> K, less: (K, K) -> bool)
  {
    && (forall a :: a in s ==> !less(key(a), key(a)))
    && (forall a, b, c :: a in s && b in s && c in s && less(key(a), key(b)) && less(key(b), key(c))
          ==> less(key(a), key(c)))
  }

  /** The members of the sorted copy are those of the input. */
  lemma SortByMembers<T, K>(s: seq<T>, key: T -> K, less: (K, K) -> bool, x: T)
    ensures forall a :: a in SortBy(s, key, less) + [x] ==> a in s + [x]
  {
    var r := SortBy(s, key, less);
    SortByPermutes(s, key, less);
    forall a | a in r + [x] ensures a in s + [x] {
      if a in r {
        assert a in multiset(r);
        assert a in multiset(s);
      }
    }
  }

  lemma StrictOrderOnSub<T, K>(s: seq<T>, u: seq<T>, key: T -> K, less: (K, K) -> bool)
    requires StrictOrderOn(s, key, less)
    requires forall a :: a in u ==> a in s
    ensures StrictOrderOn(u, key, less)
  {
  }

  /** Inserting in front of the first strictly greater element. */
  lemma InsertSortedFront<T, K>(x: T, t: seq<T>, key: T -> K, less: (K, K) -> bool)
    requires Sorted(t, key, less)
    requires StrictOrderOn(t + [x], key, less)
    requires |t| > 0 ==> less(key(x), key(t[0]))
    ensures Sorted([x] + t, key, less)
  {
    var r := [x] + t;
    forall i, j | 0 <= i < j < |r| ensures !less(key(r[j]), key(r[i])) {
      if i == 0 {
        var y := t[j - 1];
        assert y in t + [x] && x in t + [x] && t[0] in t + [x];
        assert !less(key(y), key(t[0])) by {
          if j - 1 > 0 { assert !less(key(t[j - 1]), key(t[0])); }
        }
      } else {
        assert r[i] == t[i - 1] && r[j] == t[j - 1];
      }
    }
  }

  lemma {:induction false} InsertSorted<T, K>(x: T, t: seq<T>, key: T -> K, less: (K, K) -> bool)
    requires Sorted(t, key, less)
    requires StrictOrderOn(t + [x], key, less)
    ensures Sorted(Insert(x, t, key, less), key, less)
    decreases |t|
  {
    if |t| == 0 || less(key(x), key(t[0])) {
      InsertSortedFront(x, t, key, less);
    } else {
      var u := t[1..];
      assert t == [t[0]] + u;
      StrictOrderOnSub(t + [x], u + [x], key, less);
      InsertSorted(x, u, key, less);
      var rest := Insert(x, u, key, less);
      InsertPermutes(x, u, key, less);
      forall y | y in rest ensures !less(key(y), key(t[0])) {
        assert y in multiset(rest);
        if y != x {
          assert y in multiset(u);
          var k :| 0 <= k < |u| && u[k] == y;
          assert t[k + 1] == y;
        }
      }
      ConsSorted(t[0], rest, key, less);
    }
  }

  lemma ConsSorted<T, K>(a: T, rest: seq<T>, key: T -> K, less: (K, K) -> bool)
    requires Sorted(rest, key, less)
    requires forall y :: y in rest ==> !less(key(y), key(a))
    ensures Sorted([a] + rest, key, less)
  {
    var r := [a] + rest;
    forall i, j | 0 <= i < j < |r| ensures !less(key(r[j]), key(r[i])) {
      assert r[j] == rest[j - 1];
      if i > 0 { assert r[i] == rest[i - 1]; }
    }
  }

  /** The result of `SortBy` is ordered when the keys are strictly ordered. */
  lemma {:induction false} SortBySorted<T, K>(s: seq<T>, key: T -> K, less: (K, K) -> bool)
    requires StrictOrderOn(s, key, less)
    ensures Sorted(SortBy(s, key, less), key, less)
    decreases |s|
  {
    if |s| > 0 {
      var init := s[..|s| - 1];
      assert s == init + [s[|s| - 1]];
      StrictOrderOnSub(s, init, key, less);
      SortBySorted(init, key, less);
      var sorted := SortBy(init, key, less);
      SortByMembers(init, key, less, s[|s| - 1]);
      StrictOrderOnSub(s, sorted + [s[|s| - 1]], key, less);
      InsertSorted(s[|s| - 1], sorted, key, less);
    }
  }

  /** The elements of `s` whose key is `v`, in order. */
  ghost function KeyedAs<T, K>(s: seq<T>, key: T -> K, v: K): seq<T>
  {
    if |s| == 0 then []
    else (if key(s[0]) == v then [s[0]] else []) + KeyedAs(s[1..], key, v)
  }

  lemma {:induction false} KeyedAsSnoc<T, K>(u: seq<T>, a: T, key: T -> K, v: K)
    ensures KeyedAs(u + [a], key, v) == KeyedAs(u, key, v) + (if key(a) == v then [a] else [])
    decreases |u|
  {
    if |u| > 0 {
      assert (u + [a])[1..] == u[1..] + [a];
      KeyedAsSnoc(u[1..], a, key, v);
    } else {
      assert u + [a] == [a];
    }
  }

  lemma {:induction false} KeyedAsNone<T, K>(u: seq<T>, key: T -> K, v: K)
    requires forall i :: 0 <= i < |u| ==> key(u[i]) != v
    ensures KeyedAs(u, key, v) == []
    decreases |u|
  {
    if |u| > 0 { KeyedAsNone(u[1..], key, v); }
  }

  /** Inserting in front: no element of `t` shares the key of `x`. */
  lemma InsertKeyedFront<T, K>(x: T, t: seq<T>, key: T -> K, less: (K, K) -> bool)
    requires Sorted(t, key, less)
    requires StrictOrderOn(t + [x], key, less)
    requires |t| > 0 && less(key(x), key(t[0]))
    ensures forall i :: 0 <= i < |t| ==> key(t[i]) != key(x)
  {
    forall i | 0 <= i < |t| ensures key(t[i]) != key(x) {
      assert t[i] in t + [x] && t[0] in t + [x];
      assert !less(key(t[i]), key(t[0])) by {
        if i > 0 { assert !less(key(t[i]), key(t[0])); }
      }
    }
  }

  lemma {:induction false} InsertKeyed<T, K>(x: T, t: seq<T>, key: T -> K, less: (K, K) -> bool, v: K)
    requires Sorted(t, key, less)
    requires StrictOrderOn(t + [x], key, less)
    ensures KeyedAs(Insert(x, t, key, less), key, v)
      == KeyedAs(t, key, v) + (if key(x) == v then [x] else [])
    decreases |t|
  {
    if |t| == 0 {
      assert [x] + t == [x];
    } else if less(key(x), key(t[0])) {
      assert ([x] + t)[1..] == t;
      if key(x) == v {
        InsertKeyedFront(x, t, key, less);
        KeyedAsNone(t, key, v);
      }
    } else {
      var u := t[1..];
      assert t == [t[0]] + u;
      StrictOrderOnSub(t + [x], u + [x], key, less);
      assert Sorted(u, key, less);
      InsertKeyed(x, u, key, less, v);
      InsertKeyedStep(x, t, key, less, v);
    }
  }

  lemma KeyedAsCons<T, K>(a: T, s: seq<T>, key: T -> K, v: K)
    ensures KeyedAs([a] + s, key, v) == (if key(a) == v then [a] else []) + KeyedAs(s, key, v)
  {
    assert ([a] + s)[0] == a && ([a] + s)[1..] == s;
  }

  /** Passing over the first element keeps it first among its key. */
  lemma InsertKeyedStep<T, K>(x: T, t: seq<T>, key: T -> K, less: (K, K) -> bool, v: K)
    requires |t| > 0 && !less(key(x), key(t[0]))
    requires KeyedAs(Insert(x, t[1..], key, less), key, v)
      == KeyedAs(t[1..], key, v) + (if key(x) == v then [x] else [])
    ensures KeyedAs(Insert(x, t, key, less), key, v)
      == KeyedAs(t, key, v) + (if key(x) == v then [x] else [])
  {
    var u := t[1..];
    var rest := Insert(x, u, key, less);
    var p0 := if key(t[0]) == v then [t[0]] else [];
    var px := if key(x) == v then [x] else [];
    assert Insert(x, t, key, less) == [t[0]] + rest;
    assert KeyedAs([t[0]] + rest, key, v) == p0 + KeyedAs(rest, key, v) by {
      KeyedAsCons(t[0], rest, key, v);
    }
    assert KeyedAs(t, key, v) == p0 + KeyedAs(u, key, v) by {
      KeyedAsCons(t[0], u, key, v);
      assert t == [t[0]] + u;
    }
    AppendAssociates(p0, KeyedAs(u, key, v), px);
  }

  /** Stability: for every key, the elements with that key appear in the
      output in the same order as in the input. Since every element has
      some key, this also makes the output a rearrangement of the input. */
  lemma {:induction false} SortByStable<T, K>(s: seq<T>, key: T -> K, less: (K, K) -> bool, v: K)
    requires StrictOrderOn(s, key, less)
    ensures KeyedAs(SortBy(s, key, less), key, v) == KeyedAs(s, key, v)
    decreases |s|
  {
    if |s| > 0 {
      var init := s[..|s| - 1];
      assert s == init + [s[|s| - 1]];
      StrictOrderOnSub(s, init, key, less);
      SortByStable(init, key, less, v);
      KeyedAsSnoc(init, s[|s| - 1], key, v);
      SortBySorted(init, key, less);
      var sorted := SortBy(init, key, less);
      SortByMembers(init, key, less, s[|s| - 1]);
      StrictOrderOnSub(s, sorted + [s[|s| - 1]], key, less);
      InsertKeyed(s[|s| - 1], sorted, key, less, v);
    }
  }
}
