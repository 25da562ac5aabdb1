/** The ECMAScript array operations the system relies on. */
module JsArray {

  /** The end index `a.slice(0, end)` stops at for an array of length `len`:
      a negative `end` counts back from the end of the array. */
  function SliceEnd(len: nat, end: int): (k: nat)
    ensures k <= len
    ensures 0 <= end ==> k == if end < len then end else len
    ensures end < 0 ==> k == if len + end < 0 then 0 else len + end
  {
    if end < 0 then (if len + end < 0 then 0 else len + end)
    else if end < len then end
    else len
  }

  /** `a.slice(0, end)`: a prefix of `a` of the length `SliceEnd` gives. */
  function SlicePrefix<T>(a: seq<T>, end: int): (r: seq<T>)
    ensures |r| <= |a| && r == a[..|r|]
    ensures 0 <= end ==> |r| == if end < |a| then end else |a|
    ensures end < 0 ==> |r| == if |a| + end < 0 then 0 else |a| + end
  {
    a[..SliceEnd(|a|, end)]
  }

  /** `a.filter(p)`: the elements satisfying `p`, in order. */
  function Filter<T>(a: seq<T>, p: T -> bool): (r: seq<T>)
    ensures |r| <= |a|
    ensures forall i :: 0 <= i < |r| ==> r[i] in a && p(r[i])
    ensures forall i :: 0 <= i < |a| && p(a[i]) ==> a[i] in r
    ensures (forall i :: 0 <= i < |a| ==> p(a[i])) ==> r == a
  {
    if |a| == 0 then []
    else if p(a[0]) then [a[0]] + Filter(a[1..], p)
    else Filter(a[1..], p)
  }

  /** Filtering distributes over concatenation. */
  lemma {:induction false} FilterAppend<T>(a: seq<T>, b: seq<T>, p: T -> bool)
    ensures Filter(a + b, p) == Filter(a, p) + Filter(b, p)
    decreases |a|
  {
    if |a| > 0 {
      assert (a + b)[1..] == a[1..] + b;
      FilterAppend(a[1..], b, p);
    } else {
      assert a + b == b;
    }
  }

  /** Filtering keeps every copy of a satisfying element and no copy of
      any other. */
  lemma {:induction false} FilterMultiset<T>(a: seq<T>, p: T -> bool)
    ensures forall x :: multiset(Filter(a, p))[x] == if p(x) then multiset(a)[x] else 0
    decreases |a|
  {
    if |a| > 0 {
      FilterMultiset(a[1..], p);
      assert a == [a[0]] + a[1..];
      assert multiset(a) == multiset{a[0]} + multiset(a[1..]);
      if p(a[0]) {
        assert multiset(Filter(a, p)) == multiset{a[0]} + multiset(Filter(a[1..], p));
      }
    }
  }

  /** The predicate `x => x !== v` used to drop every copy of `v`. */
  function Without<T(==)>(v: T): T -> bool { x => x != v }

  /** Dropping a value that is absent changes nothing. */
  lemma {:induction false} FilterAbsent<T>(a: seq<T>, v: T)
    requires v !in a
    ensures Filter(a, Without(v)) == a
    decreases |a|
  {
    if |a| > 0 {
      assert v !in a[1..];
      FilterAbsent(a[1..], v);
      assert a == [a[0]] + a[1..];
    }
  }

  /** Elements are pairwise distinct. */
  predicate Distinct<T(==)>(a: seq<T>) {
    forall i, j :: 0 <= i < j < |a| ==> a[i] != a[j]
  }
}
