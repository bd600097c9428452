/**
 * The stable sort both runtimes provide: JavaScript's `Array.prototype.sort`
 * (stable since ECMAScript 2019) with a comparator `(a, b) => key(b) - key(a)`,
 * and Python's `sorted(..., key=key, reverse=True)`, whose `reverse` keeps
 * equal keys in their original order. Both place an element before another
 * exactly when its key is larger, and otherwise keep the input order.
 */
module StableSort {

  ghost predicate SortedDesc<T>(r: seq<T>, key: T -> int)
  {
    forall i, j :: 0 <= i < j < |r| ==> key(r[i]) >= key(r[j])
  }

  /**
   * Ordered by `key` descending and, among equal keys, by `rank` ascending:
   * the order a stable sort produces from an input listed in `rank` order.
   */
  ghost predicate LexSorted<T>(r: seq<T>, key: T -> int, rank: T -> int)
  {
    forall i, j :: 0 <= i < j < |r| ==>
      key(r[i]) > key(r[j]) || (key(r[i]) == key(r[j]) && rank(r[i]) < rank(r[j]))
  }

  /** Places `x` in front of the first element whose key is not larger than its own. */
  function Insert<T>(x: T, t: seq<T>, key: T -> int): (r: seq<T>)
    requires SortedDesc(t, key)
    ensures multiset(r) == multiset(t) + multiset{x}
    ensures SortedDesc(r, key)
  {
    if t == [] || key(t[0]) <= key(x) then
      assert forall j :: 0 <= j < |t| ==> key(x) >= key(t[j]) by {
        if t != [] {
          assert forall j :: 0 < j < |t| ==> key(t[0]) >= key(t[j]);
        }
      }
      ConsSorted(x, t, key);
      [x] + t
    else
      var r' := Insert(x, t[1..], key);
      assert t == [t[0]] + t[1..];
      HeadBoundsRest(t, r', x, key);
      ConsSorted(t[0], r', key);
      [t[0]] + r'
  }

  /** An element no smaller than everything in a descending sequence can go in front of it. */
  lemma ConsSorted<T>(h: T, r: seq<T>, key: T -> int)
    requires SortedDesc(r, key)
    requires forall j :: 0 <= j < |r| ==> key(h) >= key(r[j])
    ensures SortedDesc([h] + r, key)
  {
    forall i, j | 0 <= i < j < |[h] + r| ensures key(([h] + r)[i]) >= key(([h] + r)[j]) {
      if i > 0 {
        assert ([h] + r)[i] == r[i - 1];
      }
      assert ([h] + r)[j] == r[j - 1];
    }
  }

  /** The head of a descending sequence bounds any rearrangement of its tail plus a smaller element. */
  lemma HeadBoundsRest<T>(t: seq<T>, r: seq<T>, x: T, key: T -> int)
    requires t != [] && SortedDesc(t, key) && key(t[0]) > key(x)
    requires multiset(r) == multiset(t[1..]) + multiset{x}
    ensures forall j :: 0 <= j < |r| ==> key(t[0]) >= key(r[j])
  {
    forall j | 0 <= j < |r| ensures key(t[0]) >= key(r[j]) {
      assert r[j] in multiset(r);
      if r[j] != x {
        assert r[j] in t[1..];
        var k :| 0 <= k < |t[1..]| && t[1..][k] == r[j];
        assert t[k + 1] == r[j];
      }
    }
  }

  /** The stable descending sort of `s` by `key`: a sorted permutation of `s`. */
  function SortDescBy<T>(s: seq<T>, key: T -> int): (r: seq<T>)
    ensures multiset(r) == multiset(s)
    ensures |r| == |s|
    ensures SortedDesc(r, key)
  {
    if s == [] then []
    else
      assert s == [s[0]] + s[1..];
      Insert(s[0], SortDescBy(s[1..], key), key)
  }

  lemma {:induction false} InsertLex<T>(x: T, t: seq<T>, key: T -> int, rank: T -> int)
    requires SortedDesc(t, key) && LexSorted(t, key, rank)
    requires forall i :: 0 <= i < |t| ==> rank(x) < rank(t[i])
    ensures LexSorted(Insert(x, t, key), key, rank)
  {
    if t == [] || key(t[0]) <= key(x) {
      assert forall j :: 0 <= j < |t| ==> key(x) >= key(t[j]) by {
        if t != [] {
          assert forall j :: 0 < j < |t| ==> key(t[0]) >= key(t[j]);
        }
      }
      ConsLex(x, t, key, rank);
    } else {
      InsertLex(x, t[1..], key, rank);
      var r' := Insert(x, t[1..], key);
      assert Insert(x, t, key) == [t[0]] + r';
      HeadLexRest(t, r', x, key, rank);
      ConsLex(t[0], r', key, rank);
    }
  }

  /** The head of a lexically sorted sequence precedes any rearrangement of its tail plus a smaller element. */
  lemma HeadLexRest<T>(t: seq<T>, r: seq<T>, x: T, key: T -> int, rank: T -> int)
    requires t != [] && LexSorted(t, key, rank) && key(t[0]) > key(x)
    requires multiset(r) == multiset(t[1..]) + multiset{x}
    ensures forall j :: 0 <= j < |r| ==>
      key(t[0]) > key(r[j]) || (key(t[0]) == key(r[j]) && rank(t[0]) < rank(r[j]))
  {
    forall j | 0 <= j < |r|
      ensures key(t[0]) > key(r[j]) || (key(t[0]) == key(r[j]) && rank(t[0]) < rank(r[j]))
    {
      assert r[j] in multiset(r);
      if r[j] != x {
        assert r[j] in t[1..];
        var k :| 0 <= k < |t[1..]| && t[1..][k] == r[j];
        assert t[k + 1] == r[j];
      }
    }
  }

  /** An element ordered before everything in a lexically sorted sequence can go in front of it. */
  lemma ConsLex<T>(h: T, r: seq<T>, key: T -> int, rank: T -> int)
    requires LexSorted(r, key, rank)
    requires forall j :: 0 <= j < |r| ==> key(h) > key(r[j]) || (key(h) == key(r[j]) && rank(h) < rank(r[j]))
    ensures LexSorted([h] + r, key, rank)
  {
    forall i, j | 0 <= i < j < |[h] + r|
      ensures key(([h] + r)[i]) > key(([h] + r)[j]) ||
              (key(([h] + r)[i]) == key(([h] + r)[j]) && rank(([h] + r)[i]) < rank(([h] + r)[j]))
    {
      if i > 0 {
        assert ([h] + r)[i] == r[i - 1];
      }
      assert ([h] + r)[j] == r[j - 1];
    }
  }

  /**
   * Stability: when the input is listed in increasing `rank`, the sorted
   * output keeps elements with equal keys in that order.
   */
  lemma {:induction false} SortIsStable<T>(s: seq<T>, key: T -> int, rank: T -> int)
    requires forall i, j :: 0 <= i < j < |s| ==> rank(s[i]) < rank(s[j])
    ensures LexSorted(SortDescBy(s, key), key, rank)
  {
    if s != [] {
      SortIsStable(s[1..], key, rank);
      var t := SortDescBy(s[1..], key);
      forall i | 0 <= i < |t| ensures rank(s[0]) < rank(t[i]) {
        assert t[i] in multiset(s[1..]);
        var k :| 0 <= k < |s[1..]| && s[1..][k] == t[i];
        assert s[k + 1] == t[i];
      }
      InsertLex(s[0], t, key, rank);
    }
  }

  /** The prefix of a descending sort holds the largest keys. */
  lemma PrefixHoldsLargest<T>(s: seq<T>, key: T -> int, k: nat, x: T)
    requires k <= |s|
    requires multiset(s)[x] > multiset(SortDescBy(s, key)[..k])[x]
    ensures forall i :: 0 <= i < k ==> key(SortDescBy(s, key)[i]) >= key(x)
  {
    SortedPrefixHoldsLargest(SortDescBy(s, key), key, k, x);
  }

  /** An element left out of a prefix of a descending sequence is no larger than anything in it. */
  lemma SortedPrefixHoldsLargest<T>(r: seq<T>, key: T -> int, k: nat, x: T)
    requires k <= |r| && SortedDesc(r, key)
    requires multiset(r)[x] > multiset(r[..k])[x]
    ensures forall i :: 0 <= i < k ==> key(r[i]) >= key(x)
  {
    var front, back := r[..k], r[k..];
    assert r == front + back;
    assert multiset(r) == multiset(front) + multiset(back);
    assert x in back;
    var j :| 0 <= j < |back| && back[j] == x;
    assert r[k + j] == x;
  }
}
