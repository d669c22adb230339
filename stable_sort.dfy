/**
 * Python's `sorted(xs, key=k)` and `xs.sort(key=k)`: a stable sort on a
 * key. Keys here are pairs of reals compared lexicographically, as Python
 * compares tuples. The model sorts by insertion; any sort that is ordered
 * and stable yields the same sequence (SortByIsUnique), so the result is the
 * one Python's sort returns.
 */
module StableSort {

  type Key = (real, real)

  /** Tuple comparison `a <= b`. */
  predicate KeyLe(a: Key, b: Key) {
    a.0 < b.0 || (a.0 == b.0 && a.1 <= b.1)
  }

  predicate SortedBy<T>(s: seq<T>, key: T -> Key) {
    forall i, j :: 0 <= i < j < |s| ==> KeyLe(key(s[i]), key(s[j]))
  }

  /** The elements of s whose key is k, in their order in s. */
  function WithKey<T>(s: seq<T>, key: T -> Key, k: Key): (r: seq<T>)
    ensures |r| <= |s|
  {
    if s == [] then []
    else (if key(s[0]) == k then [s[0]] else []) + WithKey(s[1..], key, k)
  }

  /** Stability: elements with equal keys keep their relative order. */
  ghost predicate Stable<T>(r: seq<T>, s: seq<T>, key: T -> Key) {
    forall k :: WithKey(r, key, k) == WithKey(s, key, k)
  }

  /** Puts x before the first element whose key is not smaller than x's. */
  function Insert<T>(x: T, s: seq<T>, key: T -> Key): (r: seq<T>)
    ensures |r| == |s| + 1
  {
    if s == [] then [x]
    else if KeyLe(key(x), key(s[0])) then [x] + s
    else [s[0]] + Insert(x, s[1..], key)
  }

  lemma {:induction false} InsertMultiset<T>(x: T, s: seq<T>, key: T -> Key)
    ensures multiset(Insert(x, s, key)) == multiset(s) + multiset{x}
  {
    if s != [] && !KeyLe(key(x), key(s[0])) {
      InsertMultiset(x, s[1..], key);
      assert s == [s[0]] + s[1..];
    }
  }

  lemma {:induction false} InsertSorted<T>(x: T, s: seq<T>, key: T -> Key)
    requires SortedBy(s, key)
    ensures SortedBy(Insert(x, s, key), key)
    ensures forall i :: 0 <= i < |Insert(x, s, key)| ==>
      Insert(x, s, key)[i] == x || Insert(x, s, key)[i] in s
  {
    if s != [] && !KeyLe(key(x), key(s[0])) {
      InsertSorted(x, s[1..], key);
      var t := Insert(x, s[1..], key);
      assert Insert(x, s, key) == [s[0]] + t;
      forall i | 0 < i < |t| + 1 ensures KeyLe(key(s[0]), key(([s[0]] + t)[i])) {
        assert ([s[0]] + t)[i] == t[i - 1];
        if t[i - 1] != x {
          assert t[i - 1] in s[1..];
        }
      }
      forall i | 0 <= i < |t| ensures t[i] == x || t[i] in s {
        assert t[i] == x || t[i] in s[1..];
      }
    }
  }

  lemma {:induction false} WithKeyConcat<T>(a: seq<T>, b: seq<T>, key: T -> Key, k: Key)
    ensures WithKey(a + b, key, k) == WithKey(a, key, k) + WithKey(b, key, k)
  {
    if a == [] {
      assert a + b == b;
    } else {
      assert (a + b)[0] == a[0];
      assert (a + b)[1..] == a[1..] + b;
      WithKeyConcat(a[1..], b, key, k);
    }
  }

  /** Inserting x puts it ahead of every element of equal key. */
  lemma {:induction false} InsertWithKey<T>(x: T, s: seq<T>, key: T -> Key, k: Key)
    ensures WithKey(Insert(x, s, key), key, k) == (if key(x) == k then [x] else []) + WithKey(s, key, k)
  {
    if s == [] {
    } else if KeyLe(key(x), key(s[0])) {
      WithKeyConcat([x], s, key, k);
    } else {
      assert key(x) != key(s[0]);
      InsertWithKey(x, s[1..], key, k);
      WithKeyConcat([s[0]], Insert(x, s[1..], key), key, k);
      WithKeyConcat([s[0]], s[1..], key, k);
      assert [s[0]] + s[1..] == s;
    }
  }

  /** Stable sort by insertion. */
  function SortBy<T>(s: seq<T>, key: T -> Key): (r: seq<T>)
    ensures |r| == |s|
    ensures multiset(r) == multiset(s)
    ensures SortedBy(r, key)
    ensures Stable(r, s, key)
  {
    if s == [] then []
    else
      var tail := SortBy(s[1..], key);
      InsertMultiset(s[0], tail, key);
      InsertSorted(s[0], tail, key);
      assert s == [s[0]] + s[1..];
      assert Stable(Insert(s[0], tail, key), s, key) by {
        forall k ensures WithKey(Insert(s[0], tail, key), key, k) == WithKey(s, key, k) {
          InsertWithKey(s[0], tail, key, k);
        }
      }
      Insert(s[0], tail, key)
  }

  /** The position of the first element of least key. */
  function FirstLeast<T>(s: seq<T>, key: T -> Key): (i: nat)
    requires |s| > 0
    ensures i < |s|
  {
    if |s| == 1 then 0
    else
      var j := 1 + FirstLeast(s[1..], key);
      if KeyLe(key(s[0]), key(s[j])) then 0 else j
  }

  /**
   * FirstLeast finds the first element of least key: every key is at least
   * as large as its key, and every earlier element has a strictly larger key.
   */
  lemma {:induction false} FirstLeastIsLeast<T>(s: seq<T>, key: T -> Key)
    requires |s| > 0
    ensures var i := FirstLeast(s, key);
      && (forall j :: 0 <= j < |s| ==> KeyLe(key(s[i]), key(s[j])))
      && (forall j :: 0 <= j < i ==> !KeyLe(key(s[j]), key(s[i])))
  {
    if |s| > 1 {
      var rest := s[1..];
      FirstLeastIsLeast(rest, key);
      var j := 1 + FirstLeast(rest, key);
      assert s[j] == rest[j - 1];
      forall m | 1 <= m < |s| ensures KeyLe(key(s[j]), key(s[m])) {
        assert s[m] == rest[m - 1];
      }
      forall m | 1 <= m < j ensures !KeyLe(key(s[m]), key(s[j])) {
        assert s[m] == rest[m - 1];
      }
    }
  }

  /** The head of the sorted sequence is the first element of least key. */
  lemma {:induction false} SortByHead<T>(s: seq<T>, key: T -> Key)
    requires |s| > 0
    ensures SortBy(s, key)[0] == s[FirstLeast(s, key)]
  {
    if |s| > 1 {
      SortByHead(s[1..], key);
      assert s[1 + FirstLeast(s[1..], key)] == s[1..][FirstLeast(s[1..], key)];
    }
  }

  lemma {:induction false} WithKeyWitness<T>(s: seq<T>, key: T -> Key, k: Key)
    requires WithKey(s, key, k) != []
    ensures exists j :: 0 <= j < |s| && key(s[j]) == k
  {
    if key(s[0]) != k {
      WithKeyWitness(s[1..], key, k);
      var j :| 0 <= j < |s[1..]| && key(s[1..][j]) == k;
      assert s[j + 1] == s[1..][j];
    }
  }

  lemma SortedTail<T>(r: seq<T>, key: T -> Key)
    requires r != [] && SortedBy(r, key)
    ensures SortedBy(r[1..], key)
  {
    forall i, j | 0 <= i < j < |r| - 1 ensures KeyLe(key(r[1..][i]), key(r[1..][j])) {
      assert r[1..][i] == r[i + 1] && r[1..][j] == r[j + 1];
    }
  }

  /**
   * Two nonempty ordered sequences that agree on the elements of every key
   * start with the same element, and their tails again agree on every key.
   */
  lemma SameHead<T>(r1: seq<T>, r2: seq<T>, key: T -> Key)
    requires r1 != [] && r2 != [] && SortedBy(r1, key) && SortedBy(r2, key)
    requires forall k :: WithKey(r1, key, k) == WithKey(r2, key, k)
    ensures r1[0] == r2[0]
    ensures forall k :: WithKey(r1[1..], key, k) == WithKey(r2[1..], key, k)
  {
    var k1, k2 := key(r1[0]), key(r2[0]);
    assert WithKey(r1, key, k1) != [];
    assert WithKey(r2, key, k2) != [];
    WithKeyWitness(r2, key, k1);
    WithKeyWitness(r1, key, k2);
    assert KeyLe(k2, k1) && KeyLe(k1, k2);
    assert k1 == k2;
    assert WithKey(r1, key, k1) == [r1[0]] + WithKey(r1[1..], key, k1);
    assert WithKey(r2, key, k1) == [r2[0]] + WithKey(r2[1..], key, k1);
    forall k ensures WithKey(r1[1..], key, k) == WithKey(r2[1..], key, k) {
      if k != k1 {
        assert WithKey(r1, key, k) == WithKey(r1[1..], key, k);
        assert WithKey(r2, key, k) == WithKey(r2[1..], key, k);
      } else {
        assert WithKey(r1[1..], key, k) == WithKey(r1, key, k1)[1..];
        assert WithKey(r2[1..], key, k) == WithKey(r2, key, k1)[1..];
      }
    }
    assert r1[0] == WithKey(r1, key, k1)[0] == WithKey(r2, key, k1)[0] == r2[0];
  }

  /** Two ordered sequences that agree on the elements of every key are equal. */
  lemma {:induction false} OrderedAndStableDetermine<T>(r1: seq<T>, r2: seq<T>, key: T -> Key)
    requires SortedBy(r1, key) && SortedBy(r2, key)
    requires forall k :: WithKey(r1, key, k) == WithKey(r2, key, k)
    ensures r1 == r2
  {
    if r1 == [] || r2 == [] {
      assert r1 != [] ==> WithKey(r1, key, key(r1[0])) != [];
      assert r2 != [] ==> WithKey(r2, key, key(r2[0])) != [];
    } else {
      SameHead(r1, r2, key);
      SortedTail(r1, key);
      SortedTail(r2, key);
      OrderedAndStableDetermine(r1[1..], r2[1..], key);
      assert r1 == [r1[0]] + r1[1..] && r2 == [r2[0]] + r2[1..];
    }
  }

  /**
   * Whatever algorithm a stable sort uses, its output is ordered and stable,
   * and those two facts leave one candidate: the output of SortBy.
   */
  lemma SortByIsUnique<T>(r: seq<T>, s: seq<T>, key: T -> Key)
    requires SortedBy(r, key) && Stable(r, s, key)
    ensures r == SortBy(s, key)
  {
    OrderedAndStableDetermine(r, SortBy(s, key), key);
  }
}
