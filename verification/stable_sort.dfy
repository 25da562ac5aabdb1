/** A stable sort in descending order of a numeric key: the behaviour of
    `Array.prototype.sort` (stable since ECMAScript 2019) with a comparator
    `(a, b) => key(b) - key(a)`, and of a store query ordered by one column
    when ties keep their store order. */
module StableSort {

  ghost predicate SortedDesc<T>(s: seq<T>, key: T -> real) {
    forall i, j :: 0 <= i < j < |s| ==> key(s[i]) >= key(s[j])
  }

  /** The elements of `s` whose key is `v`, in their order in `s`. */
  function WithKey<T>(s: seq<T>, key: T -> real, v: real): seq<T>
  {
    if |s| == 0 then []
    else if key(s[0]) == v then [s[0]] + WithKey(s[1..], key, v)
    else WithKey(s[1..], key, v)
  }

  /** Places `x` before the first element whose key is at most `key(x)`. */
  function Insert<T>(x: T, s: seq<T>, key: T -> real): (r: seq<T>)
    ensures multiset(r) == multiset(s) + multiset{x}
    decreases |s|
  {
    if |s| == 0 then [x]
    else if key(s[0]) <= key(x) then [x] + s
    else
      assert s == [s[0]] + s[1..];
      [s[0]] + Insert(x, s[1..], key)
  }

  /** Insertion keeps a descending sequence descending. */
  lemma {:induction false} InsertSorted<T>(x: T, s: seq<T>, key: T -> real)
    requires SortedDesc(s, key)
    ensures SortedDesc(Insert(x, s, key), key)
    decreases |s|
  {
    if |s| > 0 && key(s[0]) > key(x) {
      InsertSorted(x, s[1..], key);
      var t := Insert(x, s[1..], key);
      assert forall y :: y in multiset(t) ==> y == x || y in multiset(s[1..]);
      forall j | 0 <= j < |t| ensures key(s[0]) >= key(t[j]) {
        assert t[j] in multiset(t);
        if t[j] != x {
          assert t[j] in s[1..];
        }
      }
    }
  }

  /** Insertion puts `x` ahead of every element with the same key and leaves
      the elements of every other key in their order. */
  lemma {:induction false} InsertWithKey<T>(x: T, s: seq<T>, key: T -> real, v: real)
    requires SortedDesc(s, key)
    ensures WithKey(Insert(x, s, key), key, v)
         == if v == key(x) then [x] + WithKey(s, key, v) else WithKey(s, key, v)
    decreases |s|
  {
    if |s| == 0 {
    } else if key(s[0]) <= key(x) {
      assert ([x] + s)[1..] == s;
      if v == key(x) {
        WithKeyHead(s, key, v);
      }
    } else {
      InsertWithKey(x, s[1..], key, v);
      assert ([s[0]] + Insert(x, s[1..], key))[1..] == Insert(x, s[1..], key);
    }
  }

  /** When the head of a descending sequence has key at most `v`, every element
      with key `v` is found by scanning only that head's equals. */
  lemma WithKeyHead<T>(s: seq<T>, key: T -> real, v: real)
    requires |s| > 0 && SortedDesc(s, key) && key(s[0]) <= v
    ensures WithKey(s, key, v) == if key(s[0]) == v then [s[0]] + WithKey(s[1..], key, v) else []
  {
    if key(s[0]) < v {
      NoKeyBelow(s, key, v);
    }
  }

  /** A descending sequence whose head is below `v` has no element with key `v`. */
  lemma {:induction false} NoKeyBelow<T>(s: seq<T>, key: T -> real, v: real)
    requires SortedDesc(s, key)
    requires |s| == 0 || key(s[0]) < v
    ensures WithKey(s, key, v) == []
    decreases |s|
  {
    if |s| > 1 {
      assert key(s[1]) <= key(s[0]);
      NoKeyBelow(s[1..], key, v);
    }
  }

  /** Stable descending sort by `key`. */
  function SortDesc<T>(s: seq<T>, key: T -> real): (r: seq<T>)
    ensures SortedDesc(r, key)
    ensures multiset(r) == multiset(s)
    ensures |r| == |s|
    ensures forall v :: WithKey(r, key, v) == WithKey(s, key, v)
    decreases |s|
  {
    if |s| == 0 then []
    else
      var t := SortDesc(s[1..], key);
      assert s == [s[0]] + s[1..];
      assert multiset(s) == multiset{s[0]} + multiset(s[1..]);
      InsertSorted(s[0], t, key);
      assert forall v :: WithKey(Insert(s[0], t, key), key, v) == WithKey(s, key, v) by {
        forall v ensures WithKey(Insert(s[0], t, key), key, v) == WithKey(s, key, v) {
          InsertWithKey(s[0], t, key, v);
        }
      }
      Insert(s[0], t, key)
  }

  /** Sorting keeps the elements: membership is unchanged. */
  lemma SortDescSameElements<T>(s: seq<T>, key: T -> real)
    ensures forall x :: x in SortDesc(s, key) <==> x in s
  {
    var r := SortDesc(s, key);
    forall x ensures x in r <==> x in s {
      assert x in r <==> x in multiset(r);
      assert x in s <==> x in multiset(s);
    }
  }
}
