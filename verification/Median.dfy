/** Medians by insertion sort (contracts/oracle/src/lib.rs). */
module Median {
  import opened Base

  ghost predicate Sorted(s: seq<nat>) {
    forall i, j :: 0 <= i < j < |s| ==> s[i] <= s[j]
  }

  // ---- reference: the sorted arrangement ---------------------------------------------

  ghost function Insert(s: seq<nat>, x: nat): seq<nat> {
    if s == [] then [x]
    else if x < s[|s| - 1] then Insert(s[..|s| - 1], x) + [s[|s| - 1]]
    else s + [x]
  }

  ghost function SortedOf(s: seq<nat>): seq<nat> {
    if s == [] then [] else Insert(SortedOf(s[..|s| - 1]), s[|s| - 1])
  }

  lemma {:induction false} InsertPermutes(s: seq<nat>, x: nat)
    ensures multiset(Insert(s, x)) == multiset(s) + multiset{x}
  {
    if s != [] && x < s[|s| - 1] {
      InsertPermutes(s[..|s| - 1], x);
      assert s == s[..|s| - 1] + [s[|s| - 1]];
    }
  }

  lemma {:induction false} InsertSorts(s: seq<nat>, x: nat)
    requires Sorted(s)
    ensures Sorted(Insert(s, x))
  {
    if s != [] && x < s[|s| - 1] {
      var n := |s| - 1;
      var rest := Insert(s[..n], x);
      InsertSorts(s[..n], x);
      InsertPermutes(s[..n], x);
      forall i | 0 <= i < |rest| ensures rest[i] <= s[n] {
        assert rest[i] in multiset(rest);
        assert rest[i] in s[..n] || rest[i] == x;
      }
    }
  }

  lemma {:induction false} SortedOfSorts(s: seq<nat>)
    ensures Sorted(SortedOf(s)) && multiset(SortedOf(s)) == multiset(s) && |SortedOf(s)| == |s|
  {
    if s != [] {
      var n := |s| - 1;
      SortedOfSorts(s[..n]);
      InsertSorts(SortedOf(s[..n]), s[n]);
      InsertPermutes(SortedOf(s[..n]), s[n]);
      assert s == s[..n] + [s[n]];
      assert |multiset(SortedOf(s))| == |multiset(s)|;
    }
  }

  lemma LastIsGreatest(s: seq<nat>, x: nat)
    requires Sorted(s) && x in multiset(s)
    ensures s != [] && x <= s[|s| - 1]
  {
    var i :| 0 <= i < |s| && s[i] == x;
  }

  lemma WithoutLast(s: seq<nat>)
    requires s != []
    ensures multiset(s[..|s| - 1]) == multiset(s) - multiset{s[|s| - 1]}
    ensures Sorted(s) ==> Sorted(s[..|s| - 1])
  {
    assert s == s[..|s| - 1] + [s[|s| - 1]];
  }

  /** A multiset has one sorted arrangement. */
  lemma {:induction false} SortedUnique(a: seq<nat>, b: seq<nat>)
    requires Sorted(a) && Sorted(b) && multiset(a) == multiset(b)
    ensures a == b
  {
    hide Sorted;
    SameLength(a, b);
    if a != [] {
      var n := |a| - 1;
      assert a[n] == b[n] by {
        LastIsGreatest(b, a[n]);
        LastIsGreatest(a, b[n]);
      }
      WithoutLast(a);
      WithoutLast(b);
      SortedUnique(a[..n], b[..n]);
      SameFromLast(a, b);
    }
  }

  lemma SameFromLast(a: seq<nat>, b: seq<nat>)
    requires |a| == |b| > 0 && a[..|a| - 1] == b[..|b| - 1] && a[|a| - 1] == b[|b| - 1]
    ensures a == b
  {
    assert a == a[..|a| - 1] + [a[|a| - 1]] && b == b[..|b| - 1] + [b[|b| - 1]];
  }

  lemma SameLength(a: seq<nat>, b: seq<nat>)
    requires multiset(a) == multiset(b)
    ensures |a| == |b|
  {
    assert |multiset(a)| == |multiset(b)|;
  }

  /** Middle of a sorted list; the floor of the mean of the two middle values for even lengths. */
  function Middle(s: seq<nat>): nat
    requires s != []
  {
    if |s| % 2 == 0 then (s[|s| / 2 - 1] + s[|s| / 2]) / 2 else s[|s| / 2]
  }

  ghost function MedianOf(values: seq<nat>): nat
    requires values != []
  {
    SortedOfSorts(values);
    Middle(SortedOf(values))
  }

  /** The median does not depend on the order in which values arrive. */
  lemma MedianIgnoresOrder(v: seq<nat>, w: seq<nat>)
    requires v != [] && multiset(v) == multiset(w)
    ensures w != [] && MedianOf(v) == MedianOf(w)
  {
    assert |multiset(v)| == |multiset(w)|;
    SortedOfSorts(v);
    SortedOfSorts(w);
    SortedUnique(SortedOf(v), SortedOf(w));
  }

  /** `m` is what is expected of a median of the sorted list `s`: the middle value, or for even lengths half the
      sum of the two middle ones, rounded down. */
  ghost predicate IsMiddle(m: nat, s: seq<nat>) {
    && s != []
    && (|s| % 2 == 1 ==> m == s[|s| / 2])
    && (|s| % 2 == 0 ==> 2 * m == s[|s| / 2 - 1] + s[|s| / 2] || 2 * m + 1 == s[|s| / 2 - 1] + s[|s| / 2])
  }

  /** The median is the middle of the values in order, however they are put in order. */
  lemma MedianIsMiddle(values: seq<nat>, s: seq<nat>)
    requires values != [] && Sorted(s) && multiset(s) == multiset(values)
    ensures IsMiddle(MedianOf(values), s)
  {
    SortedOfSorts(values);
    SortedUnique(s, SortedOf(values));
    SameLength(s, values);
  }

  // ---- a majority confines the median ------------------------------------------------

  function CountIn(s: seq<nat>, lo: nat, hi: nat): nat {
    if s == [] then 0
    else CountIn(s[..|s| - 1], lo, hi) + if lo <= s[|s| - 1] <= hi then 1 else 0
  }

  lemma {:induction false} InsertCounts(s: seq<nat>, x: nat, lo: nat, hi: nat)
    ensures CountIn(Insert(s, x), lo, hi) == CountIn(s, lo, hi) + if lo <= x <= hi then 1 else 0
  {
    if s == [] {
      assert CountIn([], lo, hi) == 0;
    } else {
      var n := |s| - 1;
      if x < s[n] {
        InsertCounts(s[..n], x, lo, hi);
        assert (Insert(s[..n], x) + [s[n]])[..|Insert(s[..n], x)|] == Insert(s[..n], x);
      } else {
        assert (s + [x])[..|s|] == s;
      }
    }
  }

  lemma {:induction false} SortedOfCounts(s: seq<nat>, lo: nat, hi: nat)
    ensures CountIn(SortedOf(s), lo, hi) == CountIn(s, lo, hi)
  {
    if s != [] {
      var n := |s| - 1;
      SortedOfCounts(s[..n], lo, hi);
      InsertCounts(SortedOf(s[..n]), s[n], lo, hi);
    }
  }

  /** Positions `from <= i < to` outside the range cannot be counted. */
  lemma {:induction false} CountExcludes(s: seq<nat>, lo: nat, hi: nat, from: nat, to: nat)
    requires from <= to <= |s|
    requires forall i :: from <= i < to ==> s[i] < lo || s[i] > hi
    ensures CountIn(s, lo, hi) <= |s| - (to - from)
  {
    if s != [] {
      var n := |s| - 1;
      CountExcludes(s[..n], lo, hi, Min(from, n), Min(to, n));
    }
  }

  lemma SortedConfines(s: seq<nat>, lo: nat, hi: nat)
    requires Sorted(s) && 2 * CountIn(s, lo, hi) > |s|
    ensures s != [] && lo <= Middle(s) <= hi
  {
    if s != [] {
      var mid := |s| / 2;
      if Middle(s) < lo {
        CountExcludes(s, lo, hi, 0, if |s| % 2 == 0 then mid else mid + 1);
        assert false;
      } else if Middle(s) > hi {
        CountExcludes(s, lo, hi, mid, |s|);
        assert false;
      }
    }
  }

  /** If more than half of the values lie in [lo, hi], so does the median. */
  lemma MajorityConfines(values: seq<nat>, lo: nat, hi: nat)
    requires 2 * CountIn(values, lo, hi) > |values|
    ensures values != [] && lo <= MedianOf(values) <= hi
  {
    SortedOfSorts(values);
    SortedOfCounts(values, lo, hi);
    SortedConfines(SortedOf(values), lo, hi);
  }

  // ---- the implementation ------------------------------------------------------------

  /** `key` moved from position `i` down to position `j`. */
  ghost function Moved(s: seq<nat>, i: nat, j: nat): seq<nat>
    requires j <= i < |s|
  {
    s[..j] + [s[i]] + s[j..i] + s[i + 1..]
  }

  lemma MovedSorts(s: seq<nat>, i: nat, j: nat)
    requires j <= i < |s| && Sorted(s[..i])
    requires forall k :: 0 <= k < j ==> s[k] <= s[i]
    requires forall k :: j <= k < i ==> s[i] <= s[k]
    ensures Sorted(Moved(s, i, j)[..i + 1])
  {
    var m := Moved(s, i, j)[..i + 1];
    assert m == s[..j] + [s[i]] + s[j..i];
    forall a, b | 0 <= a < b < |m| ensures m[a] <= m[b] {
      assert m[a] == if a < j then s[..i][a] else if a == j then s[i] else s[..i][a - 1];
      assert m[b] == if b < j then s[..i][b] else if b == j then s[i] else s[..i][b - 1];
    }
  }

  lemma MovedPermutes(s: seq<nat>, i: nat, j: nat)
    requires j <= i < |s|
    ensures multiset(Moved(s, i, j)) == multiset(s)
  {
    assert s == s[..j] + s[j..i] + [s[i]] + s[i + 1..];
  }

  /** The inner loop: shifts larger values up and drops the `i`-th value into the gap. */
  method Sink(values: seq<nat>, i: nat) returns (sorted: seq<nat>)
    requires i < |values| && Sorted(values[..i])
    ensures |sorted| == |values| && multiset(sorted) == multiset(values)
    ensures Sorted(sorted[..i + 1])
  {
    sorted := values;
    var key := sorted[i];
    var j := i;
    while j > 0
      invariant 0 <= j <= i && |sorted| == |values|
      invariant sorted[..j] == values[..j] && sorted[j + 1..i + 1] == values[j..i] && sorted[i + 1..] == values[i + 1..]
      invariant forall k :: j <= k < i ==> key <= values[..i][k]
    {
      var prev := sorted[j - 1];
      if prev > key {
        sorted := sorted[j := prev];
        j := j - 1;
      } else {
        break;
      }
    }
    if j > 0 {
      assert sorted[..j][j - 1] == values[..j][j - 1] && values[..i][j - 1] <= key;
    }
    sorted := sorted[j := key];
    assert sorted == sorted[..j] + [key] + sorted[j + 1..i + 1] + sorted[i + 1..];
    assert sorted == Moved(values, i, j);
    MovedSorts(values, i, j);
    MovedPermutes(values, i, j);
  }

  method InsertionSort(values: seq<nat>) returns (sorted: seq<nat>)
    ensures Sorted(sorted) && multiset(sorted) == multiset(values)
    ensures sorted == SortedOf(values)
  {
    sorted := values;
    var i := 1;
    while i < |values|
      invariant 1 <= i && (i <= |values| || |values| == 0)
      invariant |sorted| == |values| && multiset(sorted) == multiset(values)
      invariant |values| > 0 ==> Sorted(sorted[..i])
    {
      sorted := Sink(sorted, i);
      i := i + 1;
    }
    assert |values| > 0 ==> sorted[..i] == sorted;
    SortedOfSorts(values);
    SortedUnique(sorted, SortedOf(values));
  }

  /** A sorted input has its median in the middle. */
  lemma MedianOfSorted(values: seq<nat>, sorted: seq<nat>)
    requires values != [] && sorted == SortedOf(values)
    ensures |sorted| == |values| && MedianOf(values) == Middle(sorted)
    ensures forall i :: 0 <= i < |sorted| ==> sorted[i] in values
  {
    SortedOfSorts(values);
    forall i | 0 <= i < |sorted| ensures sorted[i] in values {
      assert sorted[i] in multiset(sorted);
      assert sorted[i] in multiset(values);
    }
  }

  /** Halving first and adding the halves of the remainders gives the floor of the mean, within 128 bits. */
  lemma SplitAverage(a: nat, b: nat)
    requires a <= U128_MAX && b <= U128_MAX
    ensures SatAdd(SatAdd(a / 2, b / 2, U128_MAX), (a % 2 + b % 2) / 2, U128_MAX) == (a + b) / 2
  {
  }

  /** Median of 64-bit prices; the sum of the two middle ones is taken in 128 bits. */
  method MedianU64(prices: seq<nat>) returns (median: nat)
    requires prices != []
    ensures median == MedianOf(prices)
  {
    hide SortedOf, MedianOf, Sorted;
    var sorted := InsertionSort(prices);
    MedianOfSorted(prices, sorted);
    var mid := |prices| / 2;
    if |prices| % 2 == 0 {
      var a, b := sorted[mid - 1], sorted[mid];
      median := (a + b) / 2;
    } else {
      median := sorted[mid];
    }
  }

  /** Median of 128-bit values without ever forming the sum of two of them. */
  method MedianU128(values: seq<nat>) returns (median: nat)
    requires values != [] && forall i :: 0 <= i < |values| ==> values[i] <= U128_MAX
    ensures median == MedianOf(values)
  {
    hide SortedOf, MedianOf, Sorted, SatAdd;
    var sorted := InsertionSort(values);
    MedianOfSorted(values, sorted);
    var mid := |values| / 2;
    if |values| % 2 == 0 {
      var a, b := sorted[mid - 1], sorted[mid];
      SplitAverage(a, b);
      median := SatAdd(SatAdd(a / 2, b / 2, U128_MAX), (a % 2 + b % 2) / 2, U128_MAX);
    } else {
      median := sorted[mid];
    }
  }
}
