/**
 * `Array.prototype.sort` with a numeric comparator `(a, b) => key(b) - key(a)`.
 * ECMAScript requires the sort to be stable, so its result is fixed: the
 * elements in descending order of `key`, ties in their original order. That
 * result is written here as an insertion sort over values.
 */
module StableSort {

  /** Descending by `key`. */
  ghost predicate SortedDesc<T>(s: seq<T>, key: T -> int) {
    forall i, j :: 0 <= i < j < |s| ==> key(s[i]) >= key(s[j])
  }

  /** The elements of `s` whose key is `v`, in their order in `s`. */
  function WithKey<T>(s: seq<T>, key: T -> int, v: int): seq<T> {
    if s == [] then [] else (if key(s[0]) == v then [s[0]] else []) + WithKey(s[1..], key, v)
  }

  /** Places `x` after the leading elements of `s` whose key is at least `key(x)`. */
  function Insert<T>(s: seq<T>, x: T, key: T -> int): seq<T> {
    if s == [] then [x]
    else if key(s[0]) >= key(x) then [s[0]] + Insert(s[1..], x, key)
    else [x] + s
  }

  /** The stable descending sort of `s` by `key`. */
  function SortDesc<T>(s: seq<T>, key: T -> int): seq<T> {
    if s == [] then [] else Insert(SortDesc(s[..|s| - 1], key), s[|s| - 1], key)
  }

  lemma {:induction false} InsertBounded<T>(s: seq<T>, x: T, key: T -> int, b: int)
    requires forall i :: 0 <= i < |s| ==> key(s[i]) <= b
    requires key(x) <= b
    ensures forall i :: 0 <= i < |Insert(s, x, key)| ==> key(Insert(s, x, key)[i]) <= b
    decreases |s|
  {
    if s != [] && key(s[0]) >= key(x) {
      InsertBounded(s[1..], x, key, b);
    }
  }

  lemma {:induction false} InsertSorted<T>(s: seq<T>, x: T, key: T -> int)
    requires SortedDesc(s, key)
    ensures SortedDesc(Insert(s, x, key), key)
    decreases |s|
  {
    if s != [] && key(s[0]) >= key(x) {
      InsertSorted(s[1..], x, key);
      InsertBounded(s[1..], x, key, key(s[0]));
    }
  }

  lemma {:induction false} InsertPermutes<T>(s: seq<T>, x: T, key: T -> int)
    ensures multiset(Insert(s, x, key)) == multiset(s) + multiset{x}
    decreases |s|
  {
    if s != [] && key(s[0]) >= key(x) {
      InsertPermutes(s[1..], x, key);
      assert s == [s[0]] + s[1..];
    }
  }

  /** The sort's result is in descending order of `key`. */
  lemma {:induction false} SortDescSorted<T>(s: seq<T>, key: T -> int)
    ensures SortedDesc(SortDesc(s, key), key)
    decreases |s|
  {
    if s != [] {
      SortDescSorted(s[..|s| - 1], key);
      InsertSorted(SortDesc(s[..|s| - 1], key), s[|s| - 1], key);
    }
  }

  /** The sort's result is a permutation of its input. */
  lemma {:induction false} SortDescPermutes<T>(s: seq<T>, key: T -> int)
    ensures multiset(SortDesc(s, key)) == multiset(s)
    ensures |SortDesc(s, key)| == |s|
    decreases |s|
  {
    if s != [] {
      SortDescPermutes(s[..|s| - 1], key);
      InsertPermutes(SortDesc(s[..|s| - 1], key), s[|s| - 1], key);
      assert s == s[..|s| - 1] + [s[|s| - 1]];
    }
    assert |multiset(SortDesc(s, key))| == |multiset(s)|;
  }

  /** What `t` holds at `k`, a permutation `s` of `t` holds somewhere. */
  lemma PermutationIndex<T>(s: seq<T>, t: seq<T>, k: nat) returns (i: nat)
    requires multiset(s) == multiset(t) && k < |t|
    ensures i < |s| && s[i] == t[k]
  {
    assert t[k] in multiset(t);
    assert t[k] in s;
    i :| 0 <= i < |s| && s[i] == t[k];
  }

  lemma {:induction false} WithKeyConcat<T>(a: seq<T>, b: seq<T>, key: T -> int, v: int)
    ensures WithKey(a + b, key, v) == WithKey(a, key, v) + WithKey(b, key, v)
    decreases |a|
  {
    if a == [] {
      assert a + b == b;
    } else {
      var head := if key(a[0]) == v then [a[0]] else [];
      assert (a + b)[0] == a[0];
      assert (a + b)[1..] == a[1..] + b;
      assert WithKey(a + b, key, v) == head + WithKey(a[1..] + b, key, v);
      WithKeyConcat(a[1..], b, key, v);
      assert head + (WithKey(a[1..], key, v) + WithKey(b, key, v)) == (head + WithKey(a[1..], key, v)) + WithKey(b, key, v);
    }
  }

  lemma {:induction false} WithKeyAbsent<T>(s: seq<T>, key: T -> int, v: int)
    requires forall i :: 0 <= i < |s| ==> key(s[i]) < v
    ensures WithKey(s, key, v) == []
    decreases |s|
  {
    if s != [] {
      WithKeyAbsent(s[1..], key, v);
    }
  }

  /** Inserting keeps the relative order of equal keys, with `x` last among them. */
  lemma {:induction false} InsertStable<T>(s: seq<T>, x: T, key: T -> int, v: int)
    requires SortedDesc(s, key)
    ensures WithKey(Insert(s, x, key), key, v) == WithKey(s, key, v) + (if key(x) == v then [x] else [])
    decreases |s|
  {
    var own := if key(x) == v then [x] else [];
    if s == [] {
      assert Insert(s, x, key) == [x];
      assert WithKey([x], key, v) == own + WithKey([x][1..], key, v);
    } else {
      var head := if key(s[0]) == v then [s[0]] else [];
      assert WithKey(s, key, v) == head + WithKey(s[1..], key, v);
      if key(s[0]) >= key(x) {
        var tail := Insert(s[1..], x, key);
        assert SortedDesc(s[1..], key);
        InsertStable(s[1..], x, key, v);
        var r := [s[0]] + tail;
        assert Insert(s, x, key) == r;
        assert r[0] == s[0] && r[1..] == tail;
        assert WithKey(r, key, v) == head + WithKey(tail, key, v);
      } else {
        var r := [x] + s;
        assert Insert(s, x, key) == r;
        assert r[0] == x && r[1..] == s;
        assert WithKey(r, key, v) == own + WithKey(s, key, v);
        if key(x) == v {
          assert forall i :: 0 <= i < |s| ==> key(s[i]) <= key(s[0]);
          WithKeyAbsent(s, key, v);
        }
      }
    }
  }

  /** The sort is stable: the elements with any one key keep their input order. */
  lemma {:induction false} SortDescStable<T>(s: seq<T>, key: T -> int, v: int)
    ensures WithKey(SortDesc(s, key), key, v) == WithKey(s, key, v)
    decreases |s|
  {
    if s != [] {
      var init := s[..|s| - 1];
      var last := s[|s| - 1];
      SortDescStable(init, key, v);
      SortDescSorted(init, key);
      InsertStable(SortDesc(init, key), last, key, v);
      assert s == init + [last];
      WithKeyConcat(init, [last], key, v);
    }
  }
}
