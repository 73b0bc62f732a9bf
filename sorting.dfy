/** Sorting by a two-part text key, as `sort_values(by=[a, b])` and `sorted` order rows and keys. */
module Sorting {
  import opened Strings

  /** A sort key of two text fields compared left to right, like `(ticker, date)`. */
  type Key = (string, string)

  predicate KeyLe(a: Key, b: Key)
  {
    Less(a.0, b.0) || (a.0 == b.0 && Le(a.1, b.1))
  }

  /** `KeyLe` is a total order. */
  lemma KeyLeTotalOrder(a: Key, b: Key, c: Key)
    ensures KeyLe(a, a)
    ensures KeyLe(a, b) || KeyLe(b, a)
    ensures KeyLe(a, b) && KeyLe(b, a) ==> a == b
    ensures KeyLe(a, b) && KeyLe(b, c) ==> KeyLe(a, c)
  {
    LeTotalOrder(a.0, b.0, c.0);
    LeTotalOrder(a.1, b.1, c.1);
    LessTrichotomy(a.0, b.0);
    if Less(a.0, b.0) {
      LessAsymmetric(a.0, b.0);
      LessIrreflexive(a.0);
    }
    if Less(a.0, b.0) && Less(b.0, c.0) {
      LessTransitive(a.0, b.0, c.0);
    }
  }

  ghost predicate SortedBy<T>(s: seq<T>, key: T -> Key)
  {
    forall i, j :: 0 <= i < j < |s| ==> KeyLe(key(s[i]), key(s[j]))
  }

  /** Places `x` in front of the first element whose key is not below its own. */
  function Insert<T>(x: T, s: seq<T>, key: T -> Key): seq<T>
  {
    if s == [] then [x]
    else if KeyLe(key(x), key(s[0])) then [x] + s
    else [s[0]] + Insert(x, s[1..], key)
  }

  /** Insertion sort: a stable ascending order of `s` by `key`. */
  function SortBy<T>(s: seq<T>, key: T -> Key): seq<T>
  {
    if s == [] then [] else Insert(s[0], SortBy(s[1..], key), key)
  }

  lemma {:induction false} InsertPermutes<T>(x: T, s: seq<T>, key: T -> Key)
    ensures multiset(Insert(x, s, key)) == multiset(s) + multiset{x}
    ensures |Insert(x, s, key)| == |s| + 1
  {
    if s != [] && !KeyLe(key(x), key(s[0])) {
      InsertPermutes(x, s[1..], key);
      assert s == [s[0]] + s[1..];
    }
  }

  lemma {:induction false} InsertSorted<T>(x: T, s: seq<T>, key: T -> Key)
    requires SortedBy(s, key)
    ensures SortedBy(Insert(x, s, key), key)
  {
    if s == [] {
    } else if KeyLe(key(x), key(s[0])) {
      forall j | 0 <= j < |s| ensures KeyLe(key(x), key(s[j])) {
        KeyLeTotalOrder(key(x), key(s[0]), key(s[j]));
      }
    } else {
      var t := Insert(x, s[1..], key);
      InsertSorted(x, s[1..], key);
      InsertPermutes(x, s[1..], key);
      KeyLeTotalOrder(key(x), key(s[0]), key(x));
      forall j | 0 <= j < |t| ensures KeyLe(key(s[0]), key(t[j])) {
        assert t[j] in multiset(t);
        if t[j] != x {
          assert t[j] in multiset(s[1..]);
          var k :| 0 <= k < |s[1..]| && s[1..][k] == t[j];
          assert s[k + 1] == t[j];
        }
      }
    }
  }

  /** The sorted sequence is ordered by `key` and holds exactly the input's elements. */
  lemma {:induction false} SortBySpec<T>(s: seq<T>, key: T -> Key)
    ensures SortedBy(SortBy(s, key), key)
    ensures multiset(SortBy(s, key)) == multiset(s)
    ensures |SortBy(s, key)| == |s|
  {
    SortBySorted(s, key);
    SortByPermutes(s, key);
  }

  lemma {:induction false} SortBySorted<T>(s: seq<T>, key: T -> Key)
    ensures SortedBy(SortBy(s, key), key)
  {
    if s != [] {
      SortBySorted(s[1..], key);
      InsertSorted(s[0], SortBy(s[1..], key), key);
    }
  }

  lemma {:induction false} SortByPermutes<T>(s: seq<T>, key: T -> Key)
    ensures multiset(SortBy(s, key)) == multiset(s)
    ensures |SortBy(s, key)| == |s|
  {
    if s != [] {
      var t := SortBy(s[1..], key);
      SortByPermutes(s[1..], key);
      InsertPermutes(s[0], t, key);
      assert SortBy(s, key) == Insert(s[0], t, key);
      assert s == [s[0]] + s[1..];
      assert multiset(s) == multiset{s[0]} + multiset(s[1..]);
    }
  }

  /** The head of a sorted sequence has the least key of all its elements. */
  lemma SortedHeadLeast<T>(s: seq<T>, y: T, key: T -> Key)
    requires SortedBy(s, key) && y in multiset(s)
    ensures KeyLe(key(s[0]), key(y))
  {
    var i :| 0 <= i < |s| && s[i] == y;
    KeyLeTotalOrder(key(y), key(y), key(y));
  }

  /** Keys separate the elements of `s`. */
  ghost predicate KeysDistinct<T>(s: seq<T>, key: T -> Key)
  {
    forall x, y :: x in multiset(s) && y in multiset(s) && key(x) == key(y) ==> x == y
  }

  /** Two sorted arrangements of the same elements with distinct keys start alike. */
  lemma HeadsEqual<T>(a: seq<T>, b: seq<T>, key: T -> Key)
    requires a != [] && SortedBy(a, key) && SortedBy(b, key)
    requires multiset(a) == multiset(b) && KeysDistinct(a, key)
    ensures b != [] && a[0] == b[0]
  {
    assert a[0] in multiset(b);
    var x, y := a[0], b[0];
    assert y in multiset(a);
    SortedHeadLeast(b, x, key);
    SortedHeadLeast(a, y, key);
    KeyLeTotalOrder(key(x), key(y), key(x));
  }

  /** Dropping the first element keeps a sequence sorted. */
  lemma SortedTail<T>(a: seq<T>, key: T -> Key)
    requires a != [] && SortedBy(a, key)
    ensures SortedBy(a[1..], key)
  {
    forall i, j | 0 <= i < j < |a| - 1 ensures KeyLe(key(a[1..][i]), key(a[1..][j])) {
      assert a[1..][i] == a[i + 1] && a[1..][j] == a[j + 1];
    }
  }

  /** Dropping the first element keeps the keys distinct. */
  lemma DistinctTail<T>(a: seq<T>, key: T -> Key)
    requires a != [] && KeysDistinct(a, key)
    ensures KeysDistinct(a[1..], key)
  {
    assert a == [a[0]] + a[1..];
    assert multiset(a[1..]) <= multiset(a);
  }

  /** Equal multisets with the same head have equal tails. */
  lemma SameTails<T>(a: seq<T>, b: seq<T>)
    requires a != [] && b != [] && a[0] == b[0] && multiset(a) == multiset(b)
    ensures multiset(a[1..]) == multiset(b[1..])
  {
    assert a == [a[0]] + a[1..];
    assert b == [b[0]] + b[1..];
    assert multiset(a) == multiset{a[0]} + multiset(a[1..]);
    assert multiset(b) == multiset{a[0]} + multiset(b[1..]);
    assert multiset(a[1..]) == multiset(a) - multiset{a[0]};
    assert multiset(b[1..]) == multiset(b) - multiset{a[0]};
  }

  /** A sorted order is unique when distinct elements have distinct keys: any two sorted
      arrangements of the same elements are equal. */
  lemma {:induction false} SortedUnique<T>(a: seq<T>, b: seq<T>, key: T -> Key)
    requires SortedBy(a, key) && SortedBy(b, key)
    requires multiset(a) == multiset(b)
    requires KeysDistinct(a, key)
    ensures a == b
  {
    if a == [] {
      assert |multiset(b)| == 0;
    } else {
      HeadsEqual(a, b, key);
      SortedTail(a, key);
      SortedTail(b, key);
      DistinctTail(a, key);
      SameTails(a, b);
      SortedUnique(a[1..], b[1..], key);
      assert a == [a[0]] + a[1..] && b == [b[0]] + b[1..];
    }
  }
}
