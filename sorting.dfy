/** Python's `list.sort(key=key, reverse=True)`: a stable sort into
    non-increasing key order. Python guarantees the sort is stable even with
    `reverse=True`, so records with equal keys keep their input order.
    `SortDesc` is a reference insertion sort; `SortedStableIsUnique` shows
    that any sort with those two guarantees returns exactly its result. */
module Sorting {

  predicate SortedDesc<T>(s: seq<T>, key: T -> real)
  {
    forall i, j :: 0 <= i < j < |s| ==> key(s[i]) >= key(s[j])
  }

  /** The elements of `s` whose key is `k`, in their order in `s`. */
  function WithKey<T>(s: seq<T>, key: T -> real, k: real): seq<T>
  {
    if s == [] then []
    else (if key(s[0]) == k then [s[0]] else []) + WithKey(s[1..], key, k)
  }

  /** Inserts `x` after every element whose key is at least `key(x)`. */
  function InsertDesc<T>(x: T, s: seq<T>, key: T -> real): seq<T>
  {
    if s == [] then [x]
    else if key(s[0]) >= key(x) then [s[0]] + InsertDesc(x, s[1..], key)
    else [x] + s
  }

  /** Stable descending sort: insert the elements one at a time, in input
      order. */
  function SortDesc<T>(s: seq<T>, key: T -> real): seq<T>
  {
    if s == [] then [] else InsertDesc(s[|s| - 1], SortDesc(s[..|s| - 1], key), key)
  }

  lemma {:induction false} WithKeyConcat<T>(a: seq<T>, b: seq<T>, key: T -> real, k: real)
    ensures WithKey(a + b, key, k) == WithKey(a, key, k) + WithKey(b, key, k)
  {
    if a == [] {
      assert a + b == b;
    } else {
      var h, t := a[0], a[1..];
      WithKeyConcat(t, b, key, k);
      assert a == [h] + t;
      assert a + b == [h] + (t + b);
      WithKeyCons(h, t + b, key, k);
      WithKeyCons(h, t, key, k);
    }
  }

  lemma {:induction false} WithKeyAbsent<T>(s: seq<T>, key: T -> real, k: real)
    requires forall i :: 0 <= i < |s| ==> key(s[i]) != k
    ensures WithKey(s, key, k) == []
  {
    if s != [] {
      WithKeyAbsent(s[1..], key, k);
    }
  }

  lemma SortedTail<T>(s: seq<T>, key: T -> real)
    requires s != [] && SortedDesc(s, key)
    ensures SortedDesc(s[1..], key)
    ensures forall i :: 0 <= i < |s| ==> key(s[i]) <= key(s[0])
  {
    forall i, j | 0 <= i < j < |s| - 1 ensures key(s[1..][i]) >= key(s[1..][j]) {
      assert s[1..][i] == s[i + 1] && s[1..][j] == s[j + 1];
    }
  }

  lemma SortedAppend<T>(s: seq<T>, x: T, key: T -> real)
    requires SortedDesc(s, key)
    requires forall k :: 0 <= k < |s| ==> key(s[k]) >= key(x)
    ensures SortedDesc(s + [x], key)
  {
    var r := s + [x];
    forall i, j | 0 <= i < j < |r| ensures key(r[i]) >= key(r[j]) {
      assert r[i] == s[i];
    }
  }

  lemma SortedPrefix<T>(s: seq<T>, n: nat, key: T -> real)
    requires SortedDesc(s, key) && n <= |s|
    ensures SortedDesc(s[..n], key)
  {
    forall i, j | 0 <= i < j < n ensures key(s[..n][i]) >= key(s[..n][j]) {
      assert s[..n][i] == s[i] && s[..n][j] == s[j];
    }
  }

  lemma {:induction false} InsertPermutes<T>(x: T, s: seq<T>, key: T -> real)
    ensures multiset(InsertDesc(x, s, key)) == multiset(s) + multiset{x}
  {
    if s != [] && key(s[0]) >= key(x) {
      InsertPermutes(x, s[1..], key);
      assert s == [s[0]] + s[1..];
    }
  }

  lemma {:induction false} InsertSorted<T>(x: T, s: seq<T>, key: T -> real)
    requires SortedDesc(s, key)
    ensures SortedDesc(InsertDesc(x, s, key), key)
  {
    if s != [] {
      SortedTail(s, key);
      if key(s[0]) >= key(x) {
        InsertSorted(x, s[1..], key);
        var t := InsertDesc(x, s[1..], key);
        InsertBounded(x, s[1..], key, key(s[0]));
        var r := [s[0]] + t;
        forall i, j | 0 <= i < j < |r| ensures key(r[i]) >= key(r[j]) {
          if i == 0 { assert r[j] in t; } else { assert r[i] == t[i - 1] && r[j] == t[j - 1]; }
        }
      }
    }
  }

  /** Inserting below a bound keeps every key below it. */
  lemma {:induction false} InsertBounded<T>(x: T, s: seq<T>, key: T -> real, b: real)
    requires key(x) <= b
    requires forall i :: 0 <= i < |s| ==> key(s[i]) <= b
    ensures forall i :: 0 <= i < |InsertDesc(x, s, key)| ==> key(InsertDesc(x, s, key)[i]) <= b
  {
    if s != [] && key(s[0]) >= key(x) {
      InsertBounded(x, s[1..], key, b);
      var t := InsertDesc(x, s[1..], key);
      assert InsertDesc(x, s, key) == [s[0]] + t;
      forall i | 0 <= i < 1 + |t| ensures key(([s[0]] + t)[i]) <= b {
        if i > 0 { assert ([s[0]] + t)[i] == t[i - 1]; }
      }
    } else if s != [] {
      forall i | 0 <= i < 1 + |s| ensures key(([x] + s)[i]) <= b {
        if i > 0 { assert ([x] + s)[i] == s[i - 1]; }
      }
    }
  }

  lemma WithKeyCons<T>(h: T, t: seq<T>, key: T -> real, k: real)
    ensures WithKey([h] + t, key, k) == (if key(h) == k then [h] else []) + WithKey(t, key, k)
  {
    assert ([h] + t)[1..] == t;
  }

  /** Inserting `x` appends it to the run of elements sharing its key. */
  lemma {:induction false} InsertWithKey<T>(x: T, s: seq<T>, key: T -> real, k: real)
    requires SortedDesc(s, key)
    ensures WithKey(InsertDesc(x, s, key), key, k)
         == WithKey(s, key, k) + (if key(x) == k then [x] else [])
  {
    var tail := if key(x) == k then [x] else [];
    if s == [] {
      assert InsertDesc(x, s, key) == [x] + [];
      WithKeyCons(x, [], key, k);
    } else if key(s[0]) >= key(x) {
      SortedTail(s, key);
      InsertWithKey(x, s[1..], key, k);
      var head := if key(s[0]) == k then [s[0]] else [];
      WithKeyCons(s[0], InsertDesc(x, s[1..], key), key, k);
      calc {
        WithKey(InsertDesc(x, s, key), key, k);
        head + WithKey(InsertDesc(x, s[1..], key), key, k);
        head + (WithKey(s[1..], key, k) + tail);
        (head + WithKey(s[1..], key, k)) + tail;
        WithKey(s, key, k) + tail;
      }
    } else {
      SortedTail(s, key);
      if key(x) == k {
        WithKeyAbsent(s, key, k);
      }
      WithKeyCons(x, s, key, k);
    }
  }

  /** The reference sort returns a non-increasing permutation of its input
      in which records with equal keys keep their input order. */
  lemma {:induction false} SortDescCorrect<T>(s: seq<T>, key: T -> real)
    ensures |SortDesc(s, key)| == |s|
    ensures multiset(SortDesc(s, key)) == multiset(s)
    ensures SortedDesc(SortDesc(s, key), key)
    ensures forall k :: WithKey(SortDesc(s, key), key, k) == WithKey(s, key, k)
  {
    if s != [] {
      var init, last := s[..|s| - 1], s[|s| - 1];
      SortDescCorrect(init, key);
      var t := SortDesc(init, key);
      InsertPermutes(last, t, key);
      InsertSorted(last, t, key);
      assert s == init + [last];
      assert multiset(SortDesc(s, key)) == multiset(s);
      forall k ensures WithKey(SortDesc(s, key), key, k) == WithKey(s, key, k) {
        InsertWithKey(last, t, key, k);
        WithKeyConcat(init, [last], key, k);
      }
    }
  }

  /** Inserting an element no greater than any other appends it. */
  lemma {:induction false} InsertLast<T>(x: T, s: seq<T>, key: T -> real)
    requires forall i :: 0 <= i < |s| ==> key(s[i]) >= key(x)
    ensures InsertDesc(x, s, key) == s + [x]
  {
    if s != [] {
      InsertLast(x, s[1..], key);
      assert s == [s[0]] + s[1..];
    }
  }

  /** Sorting an already sorted sequence leaves it as it is. */
  lemma {:induction false} SortDescOfSorted<T>(s: seq<T>, key: T -> real)
    requires SortedDesc(s, key)
    ensures SortDesc(s, key) == s
  {
    if s != [] {
      var init := s[..|s| - 1];
      assert SortedDesc(init, key);
      SortDescOfSorted(init, key);
      InsertLast(s[|s| - 1], init, key);
    }
  }

  /** Two sorted sequences that agree on the elements of every key, in
      order, are equal: sortedness and stability fix the output, so any
      stable descending sort (Python's included) returns `SortDesc`. */
  lemma {:induction false} SortedStableIsUnique<T>(t: seq<T>, u: seq<T>, key: T -> real)
    requires SortedDesc(t, key) && SortedDesc(u, key)
    requires forall k :: WithKey(t, key, k) == WithKey(u, key, k)
    ensures t == u
    decreases |t|
  {
    if t == [] || u == [] {
      if t != [] {
        FirstHasKey(t, key);
      } else if u != [] {
        FirstHasKey(u, key);
      }
    } else {
      SortedTail(t, key);
      SortedTail(u, key);
      var kt, ku := key(t[0]), key(u[0]);
      WithKeyMember(u, key, kt);
      WithKeyMember(t, key, ku);
      assert kt == ku;
      assert t[0] == WithKey(t, key, kt)[0] == WithKey(u, key, kt)[0] == u[0];
      forall k ensures WithKey(t[1..], key, k) == WithKey(u[1..], key, k) {
        var head := if kt == k then [t[0]] else [];
        assert WithKey(t, key, k) == head + WithKey(t[1..], key, k);
        assert WithKey(u, key, k) == head + WithKey(u[1..], key, k);
        assert WithKey(t[1..], key, k) == WithKey(t, key, k)[|head|..];
      }
      SortedStableIsUnique(t[1..], u[1..], key);
      assert t == [t[0]] + t[1..] && u == [u[0]] + u[1..];
    }
  }

  lemma FirstHasKey<T>(s: seq<T>, key: T -> real)
    requires s != []
    ensures WithKey(s, key, key(s[0])) != []
  {
  }

  /** An element with key `k` exists when `WithKey` is non-empty. */
  lemma {:induction false} WithKeyMember<T>(s: seq<T>, key: T -> real, k: real)
    ensures WithKey(s, key, k) != [] <==> exists i :: 0 <= i < |s| && key(s[i]) == k
  {
    if s != [] {
      WithKeyMember(s[1..], key, k);
      if exists i :: 0 <= i < |s| && key(s[i]) == k {
        var i :| 0 <= i < |s| && key(s[i]) == k;
        if i > 0 { assert key(s[1..][i - 1]) == k; }
      }
      if exists i :: 0 <= i < |s[1..]| && key(s[1..][i]) == k {
        var i :| 0 <= i < |s[1..]| && key(s[1..][i]) == k;
        assert key(s[i + 1]) == k;
      }
    }
  }
}
