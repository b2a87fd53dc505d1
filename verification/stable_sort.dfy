/**
  `Array.prototype.sort` with a comparator of the form `(a, b) => key(b) - key(a)`:
  a stable sort into non-increasing key order. Such a comparator is a
  consistent one, and the language requires the sort to be stable, so the
  result is determined: the permutation of the input that is ordered by
  descending key and keeps the input order among equal keys. That result is
  written here as an insertion sort.
 */
module StableSort {

  /** Keys never increase from left to right. */
  ghost predicate NonIncreasing<T>(s: seq<T>, key: T -> real) {
    forall i, j :: 0 <= i < j < |s| ==> key(s[i]) >= key(s[j])
  }

  /** The elements whose key equals `v`, in order. */
  function WithKey<T>(s: seq<T>, key: T -> real, v: real): seq<T> {
    if |s| == 0 then []
    else (if key(s[0]) == v then [s[0]] else []) + WithKey(s[1..], key, v)
  }

  lemma {:induction false} WithKeyConcat<T>(a: seq<T>, b: seq<T>, key: T -> real, v: real)
    ensures WithKey(a + b, key, v) == WithKey(a, key, v) + WithKey(b, key, v)
  {
    if |a| == 0 {
      assert a + b == b;
    } else {
      var h := if key(a[0]) == v then [a[0]] else [];
      ConsConcat(a, b);
      WithKeyConcat(a[1..], b, key, v);
      assert WithKey(a + b, key, v) == h + (WithKey(a[1..], key, v) + WithKey(b, key, v));
      assert WithKey(a, key, v) == h + WithKey(a[1..], key, v);
    }
  }

  lemma ConsConcat<T>(a: seq<T>, b: seq<T>)
    requires |a| > 0
    ensures (a + b)[0] == a[0] && (a + b)[1..] == a[1..] + b
  {
  }

  lemma {:induction false} WithKeyAbsent<T>(s: seq<T>, key: T -> real, v: real)
    requires forall i :: 0 <= i < |s| ==> key(s[i]) != v
    ensures WithKey(s, key, v) == []
  {
    if |s| > 0 {
      WithKeyAbsent(s[1..], key, v);
    }
  }

  /** Places `x` after every element whose key is at least `key(x)`. */
  function Insert<T>(s: seq<T>, x: T, key: T -> real): seq<T> {
    if |s| == 0 then [x]
    else if key(s[0]) >= key(x) then [s[0]] + Insert(s[1..], x, key)
    else [x] + s
  }

  function SortDesc<T>(s: seq<T>, key: T -> real): seq<T> {
    if |s| == 0 then [] else Insert(SortDesc(s[..|s| - 1], key), s[|s| - 1], key)
  }

  lemma {:induction false} InsertPermutes<T>(s: seq<T>, x: T, key: T -> real)
    ensures multiset(Insert(s, x, key)) == multiset(s) + multiset{x}
  {
    if |s| > 0 && key(s[0]) >= key(x) {
      InsertPermutes(s[1..], x, key);
      assert s == [s[0]] + s[1..];
    }
  }

  /** No key in `s` exceeds `b`. */
  ghost predicate AtMost<T>(s: seq<T>, key: T -> real, b: real) {
    forall i :: 0 <= i < |s| ==> key(s[i]) <= b
  }

  lemma {:induction false} InsertAtMost<T>(s: seq<T>, x: T, key: T -> real, b: real)
    requires AtMost(s, key, b) && key(x) <= b
    ensures AtMost(Insert(s, x, key), key, b)
  {
    if |s| > 0 && key(s[0]) >= key(x) {
      InsertAtMost(s[1..], x, key, b);
    }
  }

  lemma {:induction false} InsertSorted<T>(s: seq<T>, x: T, key: T -> real)
    requires NonIncreasing(s, key)
    ensures NonIncreasing(Insert(s, x, key), key)
  {
    if |s| > 0 {
      assert AtMost(s[1..], key, key(s[0]));
      if key(s[0]) >= key(x) {
        assert NonIncreasing(s[1..], key);
        InsertSorted(s[1..], x, key);
        InsertAtMost(s[1..], x, key, key(s[0]));
      } else {
        assert AtMost(s, key, key(x));
      }
    }
  }

  lemma {:induction false} InsertStable<T>(s: seq<T>, x: T, key: T -> real, v: real)
    requires NonIncreasing(s, key)
    ensures WithKey(Insert(s, x, key), key, v) == WithKey(s, key, v) + WithKey([x], key, v)
  {
    if |s| == 0 {
      assert Insert(s, x, key) == [x];
    } else if key(s[0]) >= key(x) {
      var rest := Insert(s[1..], x, key);
      assert NonIncreasing(s[1..], key);
      InsertStable(s[1..], x, key, v);
      var r := [s[0]] + rest;
      assert r[1..] == rest;
      assert WithKey(s, key, v) == WithKey([s[0]], key, v) + WithKey(s[1..], key, v) by {
        WithKeyConcat([s[0]], s[1..], key, v);
        assert [s[0]] + s[1..] == s;
      }
      WithKeyConcat([s[0]], rest, key, v);
    } else {
      assert Insert(s, x, key) == [x] + s;
      WithKeyConcat([x], s, key, v);
      if key(x) == v {
        assert AtMost(s, key, key(s[0]));
        WithKeyAbsent(s, key, v);
      }
    }
  }

  /** The sorted result is a permutation of the input in non-increasing key
      order, and for every key value it lists the elements with that key in
      their input order (stability). */
  lemma {:induction false} SortProperties<T>(s: seq<T>, key: T -> real)
    ensures |SortDesc(s, key)| == |s|
    ensures multiset(SortDesc(s, key)) == multiset(s)
    ensures NonIncreasing(SortDesc(s, key), key)
    ensures forall v :: WithKey(SortDesc(s, key), key, v) == WithKey(s, key, v)
  {
    if |s| > 0 {
      var init, last := s[..|s| - 1], s[|s| - 1];
      SortProperties(init, key);
      InsertPermutes(SortDesc(init, key), last, key);
      InsertSorted(SortDesc(init, key), last, key);
      assert s == init + [last];
      forall v ensures WithKey(SortDesc(s, key), key, v) == WithKey(s, key, v) {
        InsertStable(SortDesc(init, key), last, key, v);
        WithKeyConcat(init, [last], key, v);
      }
      assert |SortDesc(s, key)| == |multiset(SortDesc(s, key))|;
    }
  }
}
