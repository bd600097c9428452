/**
 * Shared vocabulary for the whole model: optional values (a JSON field that
 * may be missing, a Python `None`, a JavaScript `undefined`) and sums over
 * sequences, which both the client's `reduce((sum, x) => sum + x.count, 0)`
 * and the server's running totals compute.
 */
module Common {

  datatype Option<+T> = None | Some(value: T) {
    /** `x ?? d` in TypeScript, `x if x is not None else d` in Python. */
    function GetOr(default: T): T {
      match this
      case Some(v) => v
      case None => default
    }
  }

  /** Left-to-right sum of `f` over `s`, as `s.reduce((acc, x) => acc + f(x), 0)`. */
  function SumOf<T>(s: seq<T>, f: T -> int): int
  {
    if s == [] then 0 else SumOf(s[..|s| - 1], f) + f(s[|s| - 1])
  }

  /** The same sum over a real-valued field (percentages, means). */
  function SumOfReal<T>(s: seq<T>, f: T -> real): real
  {
    if s == [] then 0.0 else SumOfReal(s[..|s| - 1], f) + f(s[|s| - 1])
  }

  /** Sum of a plain sequence of integers. */
  function Sum(xs: seq<int>): int
  {
    if xs == [] then 0 else Sum(xs[..|xs| - 1]) + xs[|xs| - 1]
  }

  lemma {:induction false} SumOfAppend<T>(a: seq<T>, b: seq<T>, f: T -> int)
    ensures SumOf(a + b, f) == SumOf(a, f) + SumOf(b, f)
  {
    if b == [] {
      assert a + b == a;
    } else {
      assert (a + b)[..|a + b| - 1] == a + b[..|b| - 1];
      SumOfAppend(a, b[..|b| - 1], f);
    }
  }

  lemma {:induction false} SumOfRealAppend<T>(a: seq<T>, b: seq<T>, f: T -> real)
    ensures SumOfReal(a + b, f) == SumOfReal(a, f) + SumOfReal(b, f)
  {
    if b == [] {
      assert a + b == a;
    } else {
      assert (a + b)[..|a + b| - 1] == a + b[..|b| - 1];
      SumOfRealAppend(a, b[..|b| - 1], f);
    }
  }

  lemma {:induction false} SumAppend(a: seq<int>, b: seq<int>)
    ensures Sum(a + b) == Sum(a) + Sum(b)
  {
    if b == [] {
      assert a + b == a;
    } else {
      assert (a + b)[..|a + b| - 1] == a + b[..|b| - 1];
      SumAppend(a, b[..|b| - 1]);
    }
  }

  /** A sum of one element more, taken from the front. */
  lemma SumOfCons<T>(x: T, s: seq<T>, f: T -> int)
    ensures SumOf([x] + s, f) == f(x) + SumOf(s, f)
  {
    SumOfAppend([x], s, f);
    assert [x][..0] == [];
  }

  /** The same front-first step for real sums. */
  lemma SumOfRealCons<T>(x: T, s: seq<T>, f: T -> real)
    ensures SumOfReal([x] + s, f) == f(x) + SumOfReal(s, f)
  {
    SumOfRealAppend([x], s, f);
    assert [x][..0] == [];
  }

  /** Sums of non-negative terms are non-negative. */
  lemma {:induction false} SumOfNonNegative<T>(s: seq<T>, f: T -> int)
    requires forall i :: 0 <= i < |s| ==> f(s[i]) >= 0
    ensures SumOf(s, f) >= 0
  {
    if s != [] {
      SumOfNonNegative(s[..|s| - 1], f);
    }
  }

  /** Number of elements of `s` equal to `x`. */
  function Occurrences<T(==)>(s: seq<T>, x: T): nat
  {
    if s == [] then 0 else Occurrences(s[..|s| - 1], x) + (if s[|s| - 1] == x then 1 else 0)
  }

  /** An element that does not occur has no occurrences; one that does has at least one. */
  lemma {:induction false} OccurrencesPositive<T>(s: seq<T>, x: T)
    ensures x !in s ==> Occurrences(s, x) == 0
    ensures x in s ==> Occurrences(s, x) >= 1
  {
    if s != [] {
      OccurrencesPositive(s[..|s| - 1], x);
      assert s == s[..|s| - 1] + [s[|s| - 1]];
    }
  }

  /** The distinct elements of `keys`, each once, in the order of first appearance. */
  function FirstSeen<T(==,!new)>(keys: seq<T>): (order: seq<T>)
    ensures forall k :: k in order <==> k in keys
    ensures Distinct(order)
    ensures |order| <= |keys|
  {
    if keys == [] then []
    else
      var o := FirstSeen(keys[..|keys| - 1]);
      var x := keys[|keys| - 1];
      assert keys == keys[..|keys| - 1] + [x];
      if x in o then o else o + [x]
  }

  /** A prefix one longer is the prefix and the next element. */
  lemma PrefixSnoc<T>(s: seq<T>, i: nat)
    requires i < |s|
    ensures s[..i + 1] == s[..i] + [s[i]]
  {
  }

  lemma FirstSeenSnoc<T(!new)>(keys: seq<T>, x: T)
    ensures FirstSeen(keys + [x]) == if x in FirstSeen(keys) then FirstSeen(keys) else FirstSeen(keys) + [x]
  {
    assert (keys + [x])[..|keys|] == keys;
  }

  lemma OccurrencesSnoc<T>(s: seq<T>, x: T, k: T)
    ensures Occurrences(s + [x], k) == Occurrences(s, k) + (if x == k then 1 else 0)
  {
    assert (s + [x])[..|s|] == s;
  }

  /** Bounds on every term bound the sum. */
  lemma {:induction false} SumOfBounds<T>(s: seq<T>, f: T -> int, lo: int, hi: int)
    requires forall i :: 0 <= i < |s| ==> lo <= f(s[i]) <= hi
    ensures lo * |s| <= SumOf(s, f) <= hi * |s|
  {
    if s != [] {
      var init := s[..|s| - 1];
      SumOfBounds(init, f, lo, hi);
      assert SumOf(s, f) == SumOf(init, f) + f(s[|s| - 1]);
      assert lo * |s| == lo * |init| + lo && hi * |s| == hi * |init| + hi;
    }
  }

  /** No element occurs twice. */
  ghost predicate Distinct<T>(s: seq<T>)
  {
    forall i, j :: 0 <= i < j < |s| ==> s[i] != s[j]
  }

  /** The elements of `s` that satisfy `p`, in order: a boolean-mask selection. */
  function Filter<T>(s: seq<T>, p: T -> bool): (r: seq<T>)
    ensures |r| <= |s|
    ensures forall x :: x in r ==> x in s && p(x)
    ensures forall i :: 0 <= i < |s| && p(s[i]) ==> s[i] in r
  {
    if s == [] then []
    else
      var init := s[..|s| - 1];
      var r0 := Filter(init, p);
      assert forall i :: 0 <= i < |init| ==> init[i] == s[i];
      r0 + (if p(s[|s| - 1]) then [s[|s| - 1]] else [])
  }

  /** A selection keeps the relative order of what it selects. */
  lemma {:induction false} FilterKeepsOrder<T>(s: seq<T>, p: T -> bool, rank: T -> int)
    requires forall i, j :: 0 <= i < j < |s| ==> rank(s[i]) < rank(s[j])
    ensures forall i, j :: 0 <= i < j < |Filter(s, p)| ==> rank(Filter(s, p)[i]) < rank(Filter(s, p)[j])
  {
    if s != [] {
      var init := s[..|s| - 1];
      var last := s[|s| - 1];
      FilterKeepsOrder(init, p, rank);
      var r0 := Filter(init, p);
      forall x | x in r0 ensures rank(x) < rank(last) {
        var k :| 0 <= k < |init| && init[k] == x;
      }
      var r := Filter(s, p);
      assert r == r0 + (if p(last) then [last] else []);
      forall i, j | 0 <= i < j < |r| ensures rank(r[i]) < rank(r[j]) {
        if j >= |r0| {
          assert p(last) && j == |r0| && r[j] == last;
          assert r[i] == r0[i] && r0[i] in r0;
        } else {
          assert r[i] == r0[i] && r[j] == r0[j];
        }
      }
    }
  }

  /** Position of the first occurrence of `x` in `s`. */
  function IndexOf<T(==)>(s: seq<T>, x: T): (i: nat)
    requires x in s
    ensures i < |s| && s[i] == x
    ensures forall j :: 0 <= j < i ==> s[j] != x
  {
    if s[0] == x then 0 else 1 + IndexOf(s[1..], x)
  }
}
