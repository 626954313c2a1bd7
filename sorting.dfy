/**
 * The two library sorts the optimiser relies on: Python's stable `list.sort`
 * with a tuple key, and `sorted` applied to a set of integers.
 */
module Sorting {

  /** A sort key compared lexicographically, like a Python tuple key `(major, minor)`. */
  datatype Key = Key(major: real, minor: int)

  predicate KeyLe(a: Key, b: Key) {
    a.major < b.major || (a.major == b.major && a.minor <= b.minor)
  }

  /** `s` is in ascending key order. */
  ghost predicate SortedBy<T>(s: seq<T>, key: T -> Key) {
    forall i, j :: 0 <= i < j < |s| ==> KeyLe(key(s[i]), key(s[j]))
  }

  /** Inserts `x` in front of the first element whose key is not smaller than its own. */
  function Insert<T>(x: T, s: seq<T>, key: T -> Key): seq<T> {
    if s == [] || KeyLe(key(x), key(s[0])) then [x] + s else [s[0]] + Insert(x, s[1..], key)
  }

  /** Insertion adds exactly the one element. */
  lemma {:induction false} InsertPermutes<T>(x: T, s: seq<T>, key: T -> Key)
    ensures multiset(Insert(x, s, key)) == multiset(s) + multiset{x}
  {
    if s != [] && !KeyLe(key(x), key(s[0])) {
      assert s == [s[0]] + s[1..];
      InsertPermutes(x, s[1..], key);
    }
  }

  lemma {:induction false} InsertSorted<T>(x: T, s: seq<T>, key: T -> Key)
    requires SortedBy(s, key)
    ensures SortedBy(Insert(x, s, key), key)
  {
    var r := Insert(x, s, key);
    if s == [] || KeyLe(key(x), key(s[0])) {
      assert r == [x] + s;
      forall i, j | 0 <= i < j < |r| ensures KeyLe(key(r[i]), key(r[j])) {
        if i == 0 && j > 1 {
          assert KeyLe(key(s[0]), key(s[j - 1]));
        }
      }
    } else {
      var rest := Insert(x, s[1..], key);
      assert r == [s[0]] + rest;
      InsertSorted(x, s[1..], key);
      assert forall i :: 0 <= i < |s[1..]| ==> KeyLe(key(s[0]), key(s[1..][i])) by {
        forall i | 0 <= i < |s[1..]| ensures KeyLe(key(s[0]), key(s[1..][i])) {
          assert s[1..][i] == s[i + 1];
        }
      }
      InsertAbove(x, s[1..], key, key(s[0]));
      forall i, j | 0 <= i < j < |r| ensures KeyLe(key(r[i]), key(r[j])) {
        assert r[j] == rest[j - 1];
        if i > 0 {
          assert r[i] == rest[i - 1];
        }
      }
    }
  }

  /** Inserting an element whose key is at least `b` into elements whose keys are at least `b` keeps them so. */
  lemma InsertAbove<T>(x: T, s: seq<T>, key: T -> Key, b: Key)
    requires KeyLe(b, key(x)) && forall i :: 0 <= i < |s| ==> KeyLe(b, key(s[i]))
    ensures forall i :: 0 <= i < |Insert(x, s, key)| ==> KeyLe(b, key(Insert(x, s, key)[i]))
  {
    var r := Insert(x, s, key);
    InsertPermutes(x, s, key);
    forall i | 0 <= i < |r| ensures KeyLe(b, key(r[i])) {
      assert r[i] in multiset(r);
      if r[i] != x {
        assert r[i] in multiset(s);
        var j :| 0 <= j < |s| && s[j] == r[i];
      }
    }
  }

  /** A stable sort by `key` (insertion sort, as a value). */
  function SortBy<T>(s: seq<T>, key: T -> Key): seq<T> {
    if s == [] then [] else Insert(s[0], SortBy(s[1..], key), key)
  }

  /** Sorting only reorders. */
  lemma {:induction false} SortByPermutes<T>(s: seq<T>, key: T -> Key)
    ensures multiset(SortBy(s, key)) == multiset(s)
  {
    if s != [] {
      assert s == [s[0]] + s[1..];
      SortByPermutes(s[1..], key);
      InsertPermutes(s[0], SortBy(s[1..], key), key);
    }
  }

  /** The sorted list is in ascending key order. */
  lemma {:induction false} SortBySorted<T>(s: seq<T>, key: T -> Key)
    ensures SortedBy(SortBy(s, key), key)
  {
    if s != [] {
      SortBySorted(s[1..], key);
      InsertSorted(s[0], SortBy(s[1..], key), key);
    }
  }

  /** The elements of `s` whose key is `k`, in their order in `s`. */
  function KeyClass<T>(s: seq<T>, key: T -> Key, k: Key): seq<T> {
    if s == [] then [] else (if key(s[0]) == k then [s[0]] else []) + KeyClass(s[1..], key, k)
  }

  lemma {:induction false} KeyClassCons<T>(y: T, s: seq<T>, key: T -> Key, k: Key)
    ensures KeyClass([y] + s, key, k) == (if key(y) == k then [y] else []) + KeyClass(s, key, k)
  {
    assert ([y] + s)[1..] == s;
  }

  lemma {:induction false} InsertKeepsKeyClass<T>(x: T, s: seq<T>, key: T -> Key, k: Key)
    ensures KeyClass(Insert(x, s, key), key, k) == (if key(x) == k then [x] else []) + KeyClass(s, key, k)
    decreases |s|, 1
  {
    if s == [] || KeyLe(key(x), key(s[0])) {
      KeyClassCons(x, s, key, k);
    } else {
      InsertPastHead(x, s, key, k);
    }
  }

  lemma {:induction false} InsertPastHead<T>(x: T, s: seq<T>, key: T -> Key, k: Key)
    requires s != [] && !KeyLe(key(x), key(s[0]))
    ensures KeyClass(Insert(x, s, key), key, k) == (if key(x) == k then [x] else []) + KeyClass(s, key, k)
    decreases |s|, 0
  {
    var rest := Insert(x, s[1..], key);
    var cx := if key(x) == k then [x] else [];
    var c0 := if key(s[0]) == k then [s[0]] else [];
    InsertKeepsKeyClass(x, s[1..], key, k);
    assert Insert(x, s, key) == [s[0]] + rest;
    KeyClassCons(s[0], rest, key, k);
    assert s == [s[0]] + s[1..];
    KeyClassCons(s[0], s[1..], key, k);
    SwapFront(c0, cx, KeyClass(s[1..], key, k));
  }

  /** Two prefixes of which one is empty can be swapped. */
  lemma SwapFront<T>(a: seq<T>, b: seq<T>, t: seq<T>)
    requires a == [] || b == []
    ensures a + (b + t) == b + (a + t)
  {
    if a == [] {
      assert a + (b + t) == b + t;
    } else {
      assert b + t == t;
    }
  }

  /** Stability: every class of equal keys keeps the order it had in the input. */
  lemma {:induction false} SortByIsStable<T>(s: seq<T>, key: T -> Key, k: Key)
    ensures KeyClass(SortBy(s, key), key, k) == KeyClass(s, key, k)
  {
    if s != [] {
      SortByIsStable(s[1..], key, k);
      InsertKeepsKeyClass(s[0], SortBy(s[1..], key), key, k);
    }
  }

  lemma HasElement(s: set<int>)
    requires s != {}
    ensures exists x :: x in s
  {
    if forall x :: x !in s {
      assert false;
    }
  }

  lemma {:induction false} Least(s: set<int>) returns (m: int)
    requires s != {}
    ensures m in s && forall y :: y in s ==> m <= y
    decreases |s|
  {
    HasElement(s);
    var x :| x in s;
    var rest := s - {x};
    if forall y :: y in rest ==> x <= y {
      m := x;
    } else {
      assert |rest| < |s|;
      var r := Least(rest);
      m := if x < r then x else r;
    }
    forall y | y in s ensures m <= y {
      if y != x { assert y in rest; }
    }
  }

  /** Every non-empty set of integers has a least element. */
  lemma HasLeast(s: set<int>)
    requires s != {}
    ensures exists m :: m in s && forall y :: y in s ==> m <= y
  {
    var m := Least(s);
  }

  /** The elements of `s` in ascending order: its least element, then the rest. */
  ghost function Ascending(s: set<int>): seq<int>
    decreases s
  {
    if s == {} then []
    else
      HasLeast(s);
      var m :| m in s && forall y :: y in s ==> m <= y;
      [m] + Ascending(s - {m})
  }

  /** The elements of `s` in descending order. */
  ghost function Descending(s: set<int>): seq<int> {
    var up := Ascending(s);
    seq(|up|, i requires 0 <= i < |up| => up[|up| - 1 - i])
  }

  /** The least element is the one `Ascending` puts first. */
  lemma AscendingUnfold(s: set<int>, m: int)
    requires m in s && forall y :: y in s ==> m <= y
    ensures Ascending(s) == [m] + Ascending(s - {m})
  {
    HasLeast(s);
    var m' :| m' in s && forall y :: y in s ==> m' <= y;
    assert m <= m' && m' <= m;
  }

  /** `Ascending(s)` lists exactly the elements of `s`, strictly ascending. */
  lemma {:induction false} AscendingSpec(s: set<int>)
    ensures forall i, j :: 0 <= i < j < |Ascending(s)| ==> Ascending(s)[i] < Ascending(s)[j]
    ensures forall x :: x in Ascending(s) <==> x in s
    decreases s
  {
    if s != {} {
      HasLeast(s);
      var m :| m in s && forall y :: y in s ==> m <= y;
      AscendingUnfold(s, m);
      var rest := Ascending(s - {m});
      AscendingSpec(s - {m});
      var r := [m] + rest;
      forall i, j | 0 <= i < j < |r| ensures r[i] < r[j] {
        assert r[j] == rest[j - 1] && r[j] in rest;
        if i > 0 {
          assert r[i] == rest[i - 1];
        }
      }
      forall x ensures x in r <==> x in s {
        assert x in r <==> x == m || x in rest;
      }
    }
  }

  /** `Descending(s)` lists exactly the elements of `s`, strictly descending. */
  lemma DescendingSpec(s: set<int>)
    ensures forall i, j :: 0 <= i < j < |Descending(s)| ==> Descending(s)[i] > Descending(s)[j]
    ensures forall x :: x in Descending(s) <==> x in s
  {
    var up := Ascending(s);
    var r := Descending(s);
    AscendingSpec(s);
    forall i, j | 0 <= i < j < |r| ensures r[i] > r[j] {
      assert r[i] == up[|up| - 1 - i] && r[j] == up[|up| - 1 - j];
    }
    forall x ensures x in r <==> x in up {
      if x in up {
        var i :| 0 <= i < |up| && up[i] == x;
        assert r[|up| - 1 - i] == x;
      }
    }
  }

  /** Python's `sorted` on a set of integers. */
  method SortedAscending(s: set<int>) returns (r: seq<int>)
    ensures r == Ascending(s)
    ensures forall i, j :: 0 <= i < j < |r| ==> r[i] < r[j]
    ensures forall x :: x in r <==> x in s
  {
    r := [];
    var rest := s;
    while rest != {}
      invariant r + Ascending(rest) == Ascending(s)
      decreases rest
    {
      HasLeast(rest);
      var m :| m in rest && forall y :: y in rest ==> m <= y;
      AscendingUnfold(rest, m);
      assert r + Ascending(rest) == (r + [m]) + Ascending(rest - {m});
      r := r + [m];
      rest := rest - {m};
    }
    assert r + Ascending(rest) == r;
    AscendingSpec(s);
  }

  /** Python's `sorted(..., reverse=True)` on a set of integers. */
  method SortedDescending(s: set<int>) returns (r: seq<int>)
    ensures r == Descending(s)
    ensures forall i, j :: 0 <= i < j < |r| ==> r[i] > r[j]
    ensures forall x :: x in r <==> x in s
  {
    var up := SortedAscending(s);
    r := seq(|up|, i requires 0 <= i < |up| => up[|up| - 1 - i]);
    DescendingSpec(s);
  }
}
