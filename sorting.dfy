/**
 * Python's `list.sort(key=lambda x: -len(x[0]))`, used on every rule list and
 * unit table of the evaluation function: a stable sort by descending key. The three
 * properties proved of `SortByKeyDesc` (ordered, a permutation, ties kept in
 * input order) determine a stable sort's output uniquely.
 */
module Sorting {

  /** Keys never increase from left to right. */
  predicate SortedDesc<T>(s: seq<T>, key: T -> nat)
  {
    forall i, j :: 0 <= i < j < |s| ==> key(s[i]) >= key(s[j])
  }

  /** The elements of `s` whose key is `n`, in their order in `s`. */
  function WithKey<T>(s: seq<T>, key: T -> nat, n: nat): seq<T>
  {
    if s == [] then []
    else (if key(s[0]) == n then [s[0]] else []) + WithKey(s[1..], key, n)
  }

  /** Puts `x` in front of the first element whose key is not larger than its own. */
  function Insert<T>(x: T, s: seq<T>, key: T -> nat): (r: seq<T>)
    ensures |r| == |s| + 1
  {
    if s == [] || key(s[0]) <= key(x) then [x] + s
    else [s[0]] + Insert(x, s[1..], key)
  }

  /** Stable insertion sort by descending key. */
  function SortByKeyDesc<T>(s: seq<T>, key: T -> nat): (r: seq<T>)
    ensures |r| == |s|
  {
    if s == [] then [] else Insert(s[0], SortByKeyDesc(s[1..], key), key)
  }

  lemma {:induction false} InsertPermutes<T>(x: T, s: seq<T>, key: T -> nat)
    ensures multiset(Insert(x, s, key)) == multiset(s) + multiset{x}
  {
    if s != [] && key(s[0]) > key(x) {
      InsertPermutes(x, s[1..], key);
      assert s == [s[0]] + s[1..];
    }
  }

  lemma {:induction false} InsertKeepsOrder<T>(x: T, s: seq<T>, key: T -> nat)
    requires SortedDesc(s, key)
    ensures SortedDesc(Insert(x, s, key), key)
  {
    if s != [] && key(s[0]) > key(x) {
      InsertKeepsOrder(x, s[1..], key);
      InsertPermutes(x, s[1..], key);
      var rest := Insert(x, s[1..], key);
      forall j | 0 <= j < |rest| ensures key(s[0]) >= key(rest[j]) {
        assert rest[j] in multiset(rest);
        assert rest[j] == x || rest[j] in multiset(s[1..]);
        if rest[j] != x {
          var i :| 0 <= i < |s[1..]| && s[1..][i] == rest[j];
          assert s[1 + i] == rest[j];
        }
      }
    }
  }

  lemma {:induction false} InsertIsStable<T>(x: T, s: seq<T>, key: T -> nat, n: nat)
    ensures WithKey(Insert(x, s, key), key, n) == (if key(x) == n then [x] else []) + WithKey(s, key, n)
  {
    var r := Insert(x, s, key);
    if s == [] || key(s[0]) <= key(x) {
      assert r[1..] == s;
    } else {
      InsertIsStable(x, s[1..], key, n);
      assert r[1..] == Insert(x, s[1..], key);
    }
  }

  /** The sorted list holds the same elements, with the same multiplicities. */
  lemma {:induction false} SortPermutes<T>(s: seq<T>, key: T -> nat)
    ensures multiset(SortByKeyDesc(s, key)) == multiset(s)
  {
    if s != [] {
      SortPermutes(s[1..], key);
      InsertPermutes(s[0], SortByKeyDesc(s[1..], key), key);
      assert s == [s[0]] + s[1..];
    }
  }

  /** The sorted list is ordered by descending key. */
  lemma {:induction false} SortOrders<T>(s: seq<T>, key: T -> nat)
    ensures SortedDesc(SortByKeyDesc(s, key), key)
  {
    if s != [] {
      SortOrders(s[1..], key);
      InsertKeepsOrder(s[0], SortByKeyDesc(s[1..], key), key);
    }
  }

  /** Elements with equal keys keep their input order. */
  lemma {:induction false} SortIsStable<T>(s: seq<T>, key: T -> nat, n: nat)
    ensures WithKey(SortByKeyDesc(s, key), key, n) == WithKey(s, key, n)
  {
    if s != [] {
      SortIsStable(s[1..], key, n);
      InsertIsStable(s[0], SortByKeyDesc(s[1..], key), key, n);
    }
  }

  /** Sorting keeps exactly the elements it was given. */
  lemma SortKeepsMembers<T>(s: seq<T>, key: T -> nat, x: T)
    ensures x in SortByKeyDesc(s, key) <==> x in s
  {
    SortPermutes(s, key);
    var r := SortByKeyDesc(s, key);
    assert x in r <==> x in multiset(r);
    assert x in s <==> x in multiset(s);
  }

  lemma {:induction false} WithKeyAppend<T>(a: seq<T>, b: seq<T>, key: T -> nat, n: nat)
    ensures WithKey(a + b, key, n) == WithKey(a, key, n) + WithKey(b, key, n)
  {
    if a == [] {
      assert a + b == b;
    } else {
      var head := if key(a[0]) == n then [a[0]] else [];
      assert (a + b)[0] == a[0];
      assert (a + b)[1..] == a[1..] + b;
      WithKeyAppend(a[1..], b, key, n);
      calc {
        WithKey(a + b, key, n);
        head + WithKey(a[1..] + b, key, n);
        head + (WithKey(a[1..], key, n) + WithKey(b, key, n));
        (head + WithKey(a[1..], key, n)) + WithKey(b, key, n);
        WithKey(a, key, n) + WithKey(b, key, n);
      }
    }
  }
}
