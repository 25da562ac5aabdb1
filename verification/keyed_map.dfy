/** The ECMAScript `Map` built from a list of `[key, value]` pairs and read
    back with `values()`: entries keep insertion order, and setting a key that
    is already present overwrites its value in place. */
module KeyedMap {
  import opened Wrappers

  /** No two elements share a key. */
  predicate DistinctKeys<K(==,!new), T>(s: seq<T>, key: T -> K) {
    forall i, j :: 0 <= i < j < |s| ==> key(s[i]) != key(s[j])
  }

  function KeySet<K(==,!new), T>(s: seq<T>, key: T -> K): set<K> {
    set i | 0 <= i < |s| :: key(s[i])
  }

  /** `map.set(key(p), p)` on the entries in insertion order. */
  function SetEntry<K(==,!new), T>(entries: seq<T>, p: T, key: T -> K): seq<T>
  {
    if |entries| == 0 then [p]
    else if key(entries[0]) == key(p) then [p] + entries[1..]
    else [entries[0]] + SetEntry(entries[1..], p, key)
  }

  /** Setting a new key appends the entry. */
  lemma {:induction false} SetEntryNew<K(!new), T>(entries: seq<T>, p: T, key: T -> K)
    requires key(p) !in KeySet(entries, key)
    ensures SetEntry(entries, p, key) == entries + [p]
    decreases |entries|
  {
    if |entries| > 0 {
      assert key(entries[0]) in KeySet(entries, key);
      assert KeySet(entries[1..], key) <= KeySet(entries, key) by {
        forall k | k in KeySet(entries[1..], key) ensures k in KeySet(entries, key) {
          var i :| 0 <= i < |entries[1..]| && key(entries[1..][i]) == k;
          assert entries[1..][i] == entries[i + 1];
        }
      }
      SetEntryNew(entries[1..], p, key);
      assert [entries[0]] + (entries[1..] + [p]) == entries + [p];
    }
  }

  /** Setting the key held at position `i` (and nowhere before) overwrites that entry. */
  lemma {:induction false} SetEntryExisting<K(!new), T>(entries: seq<T>, p: T, key: T -> K, i: int)
    requires 0 <= i < |entries| && key(entries[i]) == key(p)
    requires forall j :: 0 <= j < i ==> key(entries[j]) != key(p)
    ensures SetEntry(entries, p, key) == entries[i := p]
    decreases |entries|
  {
    if i > 0 {
      SetEntryExisting(entries[1..], p, key, i - 1);
      assert [entries[0]] + entries[1..][i - 1 := p] == entries[i := p];
    }
  }

  /** `Array.from(new Map(s.map(x => [key(x), x])).values())`. */
  function MapValues<K(==,!new), T>(s: seq<T>, key: T -> K): seq<T>
  {
    if |s| == 0 then [] else SetEntry(MapValues(s[..|s| - 1], key), s[|s| - 1], key)
  }

  /** The distinct keys of `s` in order of first occurrence. */
  function FirstKeys<K(==,!new), T>(s: seq<T>, key: T -> K): seq<K>
  {
    if |s| == 0 then []
    else if key(s[|s| - 1]) in FirstKeys(s[..|s| - 1], key) then FirstKeys(s[..|s| - 1], key)
    else FirstKeys(s[..|s| - 1], key) + [key(s[|s| - 1])]
  }

  /** The last element of `s` with key `k`. */
  function LastWithKey<K(==,!new), T>(s: seq<T>, key: T -> K, k: K): Option<T>
  {
    if |s| == 0 then None
    else if key(s[|s| - 1]) == k then Some(s[|s| - 1])
    else LastWithKey(s[..|s| - 1], key, k)
  }

  /** `FirstKeys` lists every key of `s` exactly once. */
  lemma {:induction false} FirstKeysDistinct<K(!new), T>(s: seq<T>, key: T -> K)
    ensures forall i, j :: 0 <= i < j < |FirstKeys(s, key)| ==> FirstKeys(s, key)[i] != FirstKeys(s, key)[j]
    ensures forall k :: k in FirstKeys(s, key) <==> k in KeySet(s, key)
  {
    if |s| > 0 {
      var s' := s[..|s| - 1];
      FirstKeysDistinct(s', key);
      assert KeySet(s, key) == KeySet(s', key) + {key(s[|s| - 1])} by {
        forall k | k in KeySet(s, key) ensures k in KeySet(s', key) + {key(s[|s| - 1])} {
          var i :| 0 <= i < |s| && key(s[i]) == k;
          if i < |s| - 1 { assert s'[i] == s[i]; }
        }
        forall k | k in KeySet(s', key) ensures k in KeySet(s, key) {
          var i :| 0 <= i < |s'| && key(s'[i]) == k;
          assert s[i] == s'[i];
        }
      }
    }
  }

  /** The Map keeps each key at the position of its first occurrence and with
      the value of its last occurrence. */
  lemma {:induction false} MapValuesFirstPositionLastValue<K(!new), T>(s: seq<T>, key: T -> K)
    ensures |MapValues(s, key)| == |FirstKeys(s, key)|
    ensures forall i :: 0 <= i < |MapValues(s, key)| ==>
              && key(MapValues(s, key)[i]) == FirstKeys(s, key)[i]
              && LastWithKey(s, key, FirstKeys(s, key)[i]) == Some(MapValues(s, key)[i])
  {
    if |s| > 0 {
      var s' := s[..|s| - 1];
      var p := s[|s| - 1];
      var d' := MapValues(s', key);
      var f' := FirstKeys(s', key);
      MapValuesFirstPositionLastValue(s', key);
      FirstKeysDistinct(s', key);
      if key(p) in f' {
        var i :| 0 <= i < |f'| && f'[i] == key(p);
        SetEntryExisting(d', p, key, i);
        forall j | 0 <= j < |d'| && j != i
          ensures LastWithKey(s, key, f'[j]) == LastWithKey(s', key, f'[j])
        {
          assert f'[j] != f'[i];
        }
      } else {
        assert key(p) !in KeySet(d', key) by {
          forall j | 0 <= j < |d'| ensures key(d'[j]) != key(p) { assert key(d'[j]) == f'[j]; }
        }
        SetEntryNew(d', p, key);
        forall j | 0 <= j < |d'|
          ensures LastWithKey(s, key, f'[j]) == LastWithKey(s', key, f'[j])
        {
          assert f'[j] != key(p);
        }
      }
    }
  }

  /** The last element with a key is one of the elements. */
  lemma {:induction false} LastWithKeyIn<K(!new), T>(s: seq<T>, key: T -> K, k: K)
    requires LastWithKey(s, key, k).Some?
    ensures LastWithKey(s, key, k).value in s && key(LastWithKey(s, key, k).value) == k
  {
    if key(s[|s| - 1]) != k {
      LastWithKeyIn(s[..|s| - 1], key, k);
    }
  }

  /** The Map's values have distinct keys, cover every key of the input, and
      are elements of the input. */
  lemma MapValuesProperties<K(!new), T>(s: seq<T>, key: T -> K)
    ensures DistinctKeys(MapValues(s, key), key)
    ensures KeySet(MapValues(s, key), key) == KeySet(s, key)
    ensures forall i :: 0 <= i < |MapValues(s, key)| ==> MapValues(s, key)[i] in s
  {
    var d := MapValues(s, key);
    var f := FirstKeys(s, key);
    MapValuesFirstPositionLastValue(s, key);
    FirstKeysDistinct(s, key);
    forall k | k in KeySet(s, key) ensures k in KeySet(d, key) {
      assert k in f;
      var i :| 0 <= i < |f| && f[i] == k;
      assert key(d[i]) == k;
    }
    forall i | 0 <= i < |d| ensures d[i] in s {
      LastWithKeyIn(s, key, f[i]);
    }
  }

  /** Reordering keeps keys distinct. */
  lemma DistinctKeysPermuted<K(!new), T>(a: seq<T>, b: seq<T>, key: T -> K)
    requires multiset(a) == multiset(b)
    requires DistinctKeys(a, key)
    ensures DistinctKeys(b, key)
  {
    forall i, j | 0 <= i < j < |b| ensures key(b[i]) != key(b[j]) {
      assert b[i] in multiset(a) && b[j] in multiset(a);
      var i' :| 0 <= i' < |a| && a[i'] == b[i];
      var j' :| 0 <= j' < |a| && a[j'] == b[j];
      CountAtMostOne(a, key, b[i]);
      CountOfRepeat(b, i, j);
    }
  }

  /** An element occurring twice has multiplicity at least two. */
  lemma CountOfRepeat<T>(b: seq<T>, i: int, j: int)
    requires 0 <= i < j < |b|
    ensures b[i] == b[j] ==> multiset(b)[b[i]] >= 2
  {
    if b[i] == b[j] {
      assert b == b[..i] + [b[i]] + b[i + 1..j] + [b[j]] + b[j + 1..];
    }
  }

  /** Elements of a sequence with distinct keys occur at most once. */
  lemma {:induction false} CountAtMostOne<K(!new), T>(a: seq<T>, key: T -> K, x: T)
    requires DistinctKeys(a, key)
    ensures multiset(a)[x] <= 1
  {
    if |a| > 0 {
      var t := a[..|a| - 1];
      assert a == t + [a[|a| - 1]];
      CountAtMostOne(t, key, x);
      if a[|a| - 1] == x {
        assert x !in t by {
          forall i | 0 <= i < |t| ensures t[i] != x { assert key(t[i]) != key(a[|a| - 1]); }
        }
      }
    }
  }
}
