/**
 * The "first extreme" reductions the charts use to pick the busiest and the
 * quietest entry:
 *   data.reduce((max, d) => key(d) > key(max) ? d : max, data[0])
 *   data.reduce((min, d) => key(d) < key(min) ? d : min, data[0])
 * Both walk the data left to right and replace the running choice only on a
 * strict improvement, so ties go to the earliest entry.
 */
module Series {

  /** Index of the entry `reduce` keeps as the maximum. */
  function FirstMaxIndex<T>(s: seq<T>, key: T -> int): (r: nat)
    requires |s| > 0
    ensures r < |s|
    ensures forall i :: 0 <= i < |s| ==> key(s[i]) <= key(s[r])
    ensures forall i :: 0 <= i < r ==> key(s[i]) < key(s[r])
  {
    if |s| == 1 then 0
    else
      var j := FirstMaxIndex(s[..|s| - 1], key);
      if key(s[|s| - 1]) > key(s[j]) then |s| - 1 else j
  }

  /** Index of the entry `reduce` keeps as the minimum. */
  function FirstMinIndex<T>(s: seq<T>, key: T -> int): (r: nat)
    requires |s| > 0
    ensures r < |s|
    ensures forall i :: 0 <= i < |s| ==> key(s[r]) <= key(s[i])
    ensures forall i :: 0 <= i < r ==> key(s[r]) < key(s[i])
  {
    if |s| == 1 then 0
    else
      var j := FirstMinIndex(s[..|s| - 1], key);
      if key(s[|s| - 1]) < key(s[j]) then |s| - 1 else j
  }
}
