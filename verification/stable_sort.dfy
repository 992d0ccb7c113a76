/**
 A stable sort in descending order of an integer key: what
 `[...res].sort((a, b) => key(b) - key(a))` computes, given that
 `Array.prototype.sort` is stable. Written as an insertion sort over sequences,
 so the input is never modified and the result is a new sequence.
 */
module StableSort {

  /** Keys never increase from left to right. */
  ghost predicate Descending<T>(s: seq<T>, key: T -> int) {
    forall i, j :: 0 <= i < j < |s| ==> key(s[i]) >= key(s[j])
  }

  /** The elements of `s` whose key is `k`, in their order in `s`. */
  function WithKey<T>(s: seq<T>, key: T -> int, k: int): (r: seq<T>)
    ensures |r| <= |s|
    ensures forall x :: x in r ==> x in s && key(x) == k
  {
    if s == [] then []
    else if key(s[0]) == k then [s[0]] + WithKey(s[1..], key, k)
    else WithKey(s[1..], key, k)
  }

  /**
   Places `x` in front of the first element whose key is not larger than its own:
   `x` goes after every strictly larger key and before every equal one.
   */
  function Insert<T>(x: T, s: seq<T>, key: T -> int): seq<T> {
    if s == [] || key(s[0]) <= key(x) then [x] + s
    else [s[0]] + Insert(x, s[1..], key)
  }

  /** The sorted copy: each element, from the back, is inserted into the sorted rest. */
  function SortDesc<T>(s: seq<T>, key: T -> int): seq<T> {
    if s == [] then [] else Insert(s[0], SortDesc(s[1..], key), key)
  }

  lemma {:induction false} InsertPermutes<T>(x: T, s: seq<T>, key: T -> int)
    ensures multiset(Insert(x, s, key)) == multiset(s) + multiset{x}
  {
    if s == [] || key(s[0]) <= key(x) {
    } else {
      InsertPermutes(x, s[1..], key);
      assert s == [s[0]] + s[1..];
    }
  }

  lemma {:induction false} InsertKeepsDescending<T>(x: T, s: seq<T>, key: T -> int)
    requires Descending(s, key)
    ensures Descending(Insert(x, s, key), key)
    ensures |Insert(x, s, key)| == |s| + 1
    ensures Insert(x, s, key)[0] == x || (|s| > 0 && Insert(x, s, key)[0] == s[0])
  {
    if s == [] || key(s[0]) <= key(x) {
    } else {
      InsertKeepsDescending(x, s[1..], key);
      var t := Insert(x, s[1..], key);
      var r := [s[0]] + t;
      assert r == Insert(x, s, key);
      forall i, j | 0 <= i < j < |r|
        ensures key(r[i]) >= key(r[j])
      {
        if i > 0 {
          assert key(t[i - 1]) >= key(t[j - 1]);
        } else if t[j - 1] == x {
        } else {
          assert t[j - 1] in s[1..] by {
            InsertPermutes(x, s[1..], key);
            assert t[j - 1] in multiset(t);
          }
        }
      }
    }
  }

  /** The sorted copy is ordered by descending key. */
  lemma {:induction false} SortDescIsDescending<T>(s: seq<T>, key: T -> int)
    ensures Descending(SortDesc(s, key), key)
    ensures |SortDesc(s, key)| == |s|
  {
    if s != [] {
      SortDescIsDescending(s[1..], key);
      InsertKeepsDescending(s[0], SortDesc(s[1..], key), key);
    }
  }

  /** The sorted copy holds exactly the input's elements, each as often. */
  lemma {:induction false} SortDescPermutes<T>(s: seq<T>, key: T -> int)
    ensures multiset(SortDesc(s, key)) == multiset(s)
  {
    if s != [] {
      SortDescPermutes(s[1..], key);
      InsertPermutes(s[0], SortDesc(s[1..], key), key);
      assert s == [s[0]] + s[1..];
    }
  }

  lemma {:induction false} InsertWithKey<T>(x: T, s: seq<T>, key: T -> int, k: int)
    ensures WithKey(Insert(x, s, key), key, k)
         == if key(x) == k then [x] + WithKey(s, key, k) else WithKey(s, key, k)
  {
    if s == [] || key(s[0]) <= key(x) {
      assert ([x] + s)[1..] == s;
    } else {
      InsertWithKey(x, s[1..], key, k);
      assert ([s[0]] + Insert(x, s[1..], key))[1..] == Insert(x, s[1..], key);
    }
  }

  /** Stability: elements with equal keys keep their relative input order. */
  lemma {:induction false} SortDescIsStable<T>(s: seq<T>, key: T -> int, k: int)
    ensures WithKey(SortDesc(s, key), key, k) == WithKey(s, key, k)
  {
    if s != [] {
      SortDescIsStable(s[1..], key, k);
      InsertWithKey(s[0], SortDesc(s[1..], key), key, k);
    }
  }

  /** A sequence that is already in descending order is returned as it is. */
  lemma {:induction false} SortDescOfDescending<T>(s: seq<T>, key: T -> int)
    requires Descending(s, key)
    ensures SortDesc(s, key) == s
  {
    if s != [] {
      assert Descending(s[1..], key);
      SortDescOfDescending(s[1..], key);
      assert s == [s[0]] + s[1..];
    }
  }

  /** Sorting twice gives the same order as sorting once. */
  lemma SortDescIdempotent<T>(s: seq<T>, key: T -> int)
    ensures SortDesc(SortDesc(s, key), key) == SortDesc(s, key)
  {
    SortDescIsDescending(s, key);
    SortDescOfDescending(SortDesc(s, key), key);
  }
}
