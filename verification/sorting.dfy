/** The ordering every script uses: `Array.prototype.sort` with the
    comparator `(a, b) => key(b) - key(a)`, i.e. most recent first.  The
    sort is stable (section 23.1.3.30 of ECMA-262, 2023 edition), so this
    module models it as a stable insertion sort over an integer key and
    characterises it completely: sorted, a permutation, and order-preserving
    among equal keys. */
module Sorting {

  /** Non-increasing in `key`. */
  ghost predicate SortedDesc<T>(s: seq<T>, key: T -> int) {
    forall i, j :: 0 <= i < j < |s| ==> key(s[i]) >= key(s[j])
  }

  /** The elements of `s` whose key is `k`, in their order in `s`. */
  function WithKey<T>(s: seq<T>, key: T -> int, k: int): (r: seq<T>)
    ensures |r| <= |s|
  {
    if s == [] then []
    else (if key(s[0]) == k then [s[0]] else []) + WithKey(s[1..], key, k)
  }

  /** `s` and `r` list the elements of each key in the same order: the
      defining property of a stable rearrangement. */
  ghost predicate SameOrderPerKey<T>(r: seq<T>, s: seq<T>, key: T -> int) {
    forall k :: WithKey(r, key, k) == WithKey(s, key, k)
  }

  /** The specification of a stable descending sort of `s`. */
  ghost predicate IsStableSortOf<T>(r: seq<T>, s: seq<T>, key: T -> int) {
    && SortedDesc(r, key)
    && multiset(r) == multiset(s)
    && SameOrderPerKey(r, s, key)
  }

  /** Puts `x` in front of the first element whose key is not greater. */
  function Insert<T>(x: T, s: seq<T>, key: T -> int): (r: seq<T>)
    ensures multiset(r) == multiset{x} + multiset(s)
    ensures |r| == |s| + 1
    ensures r[0] == x || (s != [] && r[0] == s[0])
  {
    if s == [] || key(s[0]) <= key(x) then [x] + s
    else
      assert s == [s[0]] + s[1..];
      [s[0]] + Insert(x, s[1..], key)
  }

  lemma {:induction false} InsertKeepsSorted<T>(x: T, s: seq<T>, key: T -> int)
    requires SortedDesc(s, key)
    ensures SortedDesc(Insert(x, s, key), key)
  {
    var r := Insert(x, s, key);
    if s == [] || key(s[0]) <= key(x) {
      forall i, j | 0 <= i < j < |r| ensures key(r[i]) >= key(r[j]) {
        if i > 0 {
          assert r[i] == s[i - 1] && r[j] == s[j - 1];
        } else {
          assert r[j] == s[j - 1];
        }
      }
    } else {
      var t := Insert(x, s[1..], key);
      InsertKeepsSorted(x, s[1..], key);
      forall j | 0 <= j < |t| ensures key(s[0]) >= key(t[j]) {
        assert t[j] in multiset{x} + multiset(s[1..]);
        if t[j] != x {
          var m :| 0 <= m < |s[1..]| && s[1..][m] == t[j];
          assert s[m + 1] == t[j];
        }
      }
      forall i, j | 0 <= i < j < |r| ensures key(r[i]) >= key(r[j]) {
        assert r[j] == t[j - 1];
        if i > 0 {
          assert r[i] == t[i - 1];
        }
      }
    }
  }

  /** `x` lands in front of the other elements of its key. */
  lemma {:induction false} InsertWithKey<T>(x: T, s: seq<T>, key: T -> int, k: int)
    ensures WithKey(Insert(x, s, key), key, k) == (if key(x) == k then [x] else []) + WithKey(s, key, k)
  {
    var r := Insert(x, s, key);
    if s == [] || key(s[0]) <= key(x) {
      assert r[0] == x && r[1..] == s;
    } else {
      var t := Insert(x, s[1..], key);
      assert r[0] == s[0] && r[1..] == t;
      InsertWithKey(x, s[1..], key, k);
    }
  }

  /** Stable insertion sort, most recent (greatest key) first. */
  function SortDesc<T>(s: seq<T>, key: T -> int): (r: seq<T>)
    ensures IsStableSortOf(r, s, key)
    ensures |r| == |s|
  {
    if s == [] then []
    else
      var t := SortDesc(s[1..], key);
      var r := Insert(s[0], t, key);
      assert s == [s[0]] + s[1..];
      InsertKeepsSorted(s[0], t, key);
      forall k ensures WithKey(r, key, k) == WithKey(s, key, k) {
        InsertWithKey(s[0], t, key, k);
      }
      r
  }

  lemma {:induction false} WithKeyConcat<T>(a: seq<T>, b: seq<T>, key: T -> int, k: int)
    ensures WithKey(a + b, key, k) == WithKey(a, key, k) + WithKey(b, key, k)
  {
    if a != [] {
      assert (a + b)[0] == a[0];
      assert (a + b)[1..] == a[1..] + b;
      WithKeyConcat(a[1..], b, key, k);
    } else {
      assert a + b == b;
    }
  }

  lemma {:induction false} WithKeyMembers<T>(s: seq<T>, key: T -> int, k: int, x: T)
    ensures x in WithKey(s, key, k) <==> x in s && key(x) == k
  {
    if s != [] {
      WithKeyMembers(s[1..], key, k, x);
      assert x in s <==> x == s[0] || x in s[1..];
    }
  }

  /** The first element of key `k` in the filtered view is the first
      element of key `k` in `s` itself. */
  lemma {:induction false} WithKeyHead<T>(s: seq<T>, key: T -> int, k: int) returns (i: nat)
    requires WithKey(s, key, k) != []
    ensures i < |s| && s[i] == WithKey(s, key, k)[0] && key(s[i]) == k
    ensures forall j :: 0 <= j < i ==> key(s[j]) != k
  {
    if key(s[0]) == k {
      i := 0;
    } else {
      var i' := WithKeyHead(s[1..], key, k);
      i := i' + 1;
    }
  }

  /** Removing the common first element keeps the per-key orders equal. */
  lemma SameOrderPerKeyTail<T>(a: seq<T>, b: seq<T>, key: T -> int)
    requires a != [] && b != [] && a[0] == b[0]
    requires SameOrderPerKey(a, b, key)
    ensures SameOrderPerKey(a[1..], b[1..], key)
  {
    forall k ensures WithKey(a[1..], key, k) == WithKey(b[1..], key, k) {
      var p := if key(a[0]) == k then [a[0]] else [];
      assert WithKey(a, key, k) == WithKey(b, key, k);
      assert WithKey(a[1..], key, k) == WithKey(a, key, k)[|p|..];
      assert WithKey(b[1..], key, k) == WithKey(b, key, k)[|p|..];
    }
  }

  /** Two descending sequences that agree on the order of every key are
      equal: the stable sort of a sequence is unique. */
  lemma {:induction false} StableSortUnique<T>(a: seq<T>, b: seq<T>, key: T -> int)
    requires SortedDesc(a, key) && SortedDesc(b, key)
    requires SameOrderPerKey(a, b, key)
    ensures a == b
  {
    if a == [] && b == [] {
    } else if a == [] {
      assert false;
    } else if b == [] {
      WithKeyMembers(a, key, key(a[0]), a[0]);
      assert false;
    } else {
      var ka, kb := key(a[0]), key(b[0]);
      assert WithKey(a, key, ka)[0] == a[0];
      assert WithKey(b, key, kb)[0] == b[0];
      var x := WithKey(b, key, ka)[0];
      WithKeyMembers(b, key, ka, x);
      var y := WithKey(a, key, kb)[0];
      WithKeyMembers(a, key, kb, y);
      assert kb >= ka && ka >= kb;
      assert a[0] == b[0];
      SameOrderPerKeyTail(a, b, key);
      StableSortUnique(a[1..], b[1..], key);
      assert a == [a[0]] + a[1..];
      assert b == [b[0]] + b[1..];
    }
  }

  /** Any stable descending sort of `s` is `SortDesc(s, key)`. */
  lemma SortDescIsTheStableSort<T>(r: seq<T>, s: seq<T>, key: T -> int)
    requires SortedDesc(r, key) && SameOrderPerKey(r, s, key)
    ensures r == SortDesc(s, key)
  {
    StableSortUnique(r, SortDesc(s, key), key);
  }

  /** Sorting an already sorted sequence leaves it as it is. */
  lemma {:induction false} SortDescIdempotent<T>(s: seq<T>, key: T -> int)
    ensures SortDesc(SortDesc(s, key), key) == SortDesc(s, key)
  {
    var r := SortDesc(s, key);
    StableSortUnique(SortDesc(r, key), r, key);
  }

  /** The first element of a non-empty stable descending sort is the first
      element of `s` of maximal key. */
  lemma {:induction false} SortDescHeadIsFirstMax<T>(s: seq<T>, key: T -> int) returns (i: nat)
    requires s != []
    ensures i < |s| && SortDesc(s, key)[0] == s[i]
    ensures forall j :: 0 <= j < |s| ==> key(s[j]) <= key(s[i])
    ensures forall j :: 0 <= j < i ==> key(s[j]) < key(s[i])
  {
    var r := SortDesc(s, key);
    var k := key(r[0]);
    assert WithKey(r, key, k)[0] == r[0];
    assert WithKey(s, key, k) == WithKey(r, key, k);
    i := WithKeyHead(s, key, k);
    forall j | 0 <= j < |s| ensures key(s[j]) <= k {
      assert s[j] in multiset(r);
      var m :| 0 <= m < |r| && r[m] == s[j];
    }
  }
}
