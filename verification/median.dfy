/**
 * The median of a sample buffer. The source sorts the first `count` entries
 * in place with a bubble sort and returns entry `count / 2`; the filters then
 * also use entries 0 and count-1 of the sorted buffer as the minimum and the
 * maximum. This module states what those three values are independently of
 * any sorting algorithm.
 */
module Median {

  predicate Sorted(s: seq<int>)
  {
    forall i, j | 0 <= i < j < |s| :: s[i] <= s[j]
  }

  /** How many entries are below `v`, and how many are at most `v`. */
  function CountLess(s: seq<int>, v: int): nat
  {
    if |s| == 0 then 0 else (if s[0] < v then 1 else 0) + CountLess(s[1..], v)
  }

  function CountAtMost(s: seq<int>, v: int): nat
  {
    if |s| == 0 then 0 else (if s[0] <= v then 1 else 0) + CountAtMost(s[1..], v)
  }

  /** Insert into a sorted sequence: a reference sort independent of the source's. */
  function Insert(x: int, s: seq<int>): (r: seq<int>)
    requires Sorted(s)
    ensures Sorted(r)
    ensures multiset(r) == multiset{x} + multiset(s)
    ensures |r| == |s| + 1 && r[0] == (if |s| == 0 || x <= s[0] then x else s[0])
  {
    if |s| == 0 || x <= s[0] then
      [x] + s
    else
      SortedTail(s);
      var t := Insert(x, s[1..]);
      assert s == [s[0]] + s[1..];
      SortedCons(s[0], t);
      [s[0]] + t
  }

  lemma SortedTail(s: seq<int>)
    requires Sorted(s) && |s| > 0
    ensures Sorted(s[1..])
  {
  }

  lemma SortedCons(x: int, t: seq<int>)
    requires Sorted(t) && (|t| == 0 || x <= t[0])
    ensures Sorted([x] + t)
  {
    var r := [x] + t;
    forall i, j | 0 <= i < j < |r| ensures r[i] <= r[j] {
      if i > 0 {
        assert r[i] == t[i - 1] && r[j] == t[j - 1];
      } else {
        assert r[j] == t[j - 1] && t[0] <= t[j - 1];
      }
    }
  }

  function Sort(s: seq<int>): (r: seq<int>)
    ensures Sorted(r)
    ensures multiset(r) == multiset(s)
  {
    if |s| == 0 then []
    else
      assert s == [s[0]] + s[1..];
      Insert(s[0], Sort(s[1..]))
  }

  lemma {:induction false} InsertCounts(x: int, s: seq<int>, v: int)
    requires Sorted(s)
    ensures CountLess(Insert(x, s), v) == (if x < v then 1 else 0) + CountLess(s, v)
    ensures CountAtMost(Insert(x, s), v) == (if x <= v then 1 else 0) + CountAtMost(s, v)
  {
    if |s| > 0 && x > s[0] {
      InsertCounts(x, s[1..], v);
      assert ([s[0]] + Insert(x, s[1..]))[1..] == Insert(x, s[1..]);
    }
  }

  /** Sorting keeps the number of entries below and at most any value. */
  lemma {:induction false} SortCounts(s: seq<int>, v: int)
    ensures CountLess(Sort(s), v) == CountLess(s, v)
    ensures CountAtMost(Sort(s), v) == CountAtMost(s, v)
  {
    if |s| > 0 {
      SortCounts(s[1..], v);
      InsertCounts(s[0], Sort(s[1..]), v);
    }
  }

  /** A sorted arrangement of a multiset is unique. */
  lemma {:induction false} SortedUnique(a: seq<int>, b: seq<int>)
    requires Sorted(a) && Sorted(b) && multiset(a) == multiset(b)
    ensures a == b
  {
    if |a| == 0 {
      assert |multiset(b)| == 0;
    } else {
      assert |b| == |multiset(b)| == |a|;
      assert a[0] == b[0] by {
        assert a[0] in multiset(b) && b[0] in multiset(a);
        var i :| 0 <= i < |b| && b[i] == a[0];
        var j :| 0 <= j < |a| && a[j] == b[0];
        assert b[0] <= b[i] && a[0] <= a[j];
      }
      assert a == [a[0]] + a[1..];
      assert b == [b[0]] + b[1..];
      assert multiset(a) == multiset{a[0]} + multiset(a[1..]);
      assert multiset(b) == multiset{b[0]} + multiset(b[1..]);
      assert multiset(a[1..]) == multiset(a) - multiset{a[0]};
      assert multiset(b[1..]) == multiset(b) - multiset{b[0]};
      SortedTail(a);
      SortedTail(b);
      SortedUnique(a[1..], b[1..]);
    }
  }

  /** The median, the upper middle for even counts: entry n/2 of the sorted sample. */
  function MedianOf(s: seq<int>): (m: int)
    requires |s| >= 1
    ensures m in s
    ensures CountLess(s, m) <= |s| / 2 < CountAtMost(s, m)
  {
    var r := Sort(s);
    assert r[|s| / 2] in multiset(s);
    SortedRank(r, |s| / 2);
    SortCounts(s, r[|s| / 2]);
    r[|s| / 2]
  }

  function MinOf(s: seq<int>): (m: int)
    requires |s| >= 1
    ensures m in s && forall x | x in s :: m <= x
  {
    var r := Sort(s);
    assert r[0] in multiset(s);
    SortedBounds(r);
    SameElements(s, r);
    r[0]
  }

  function MaxOf(s: seq<int>): (m: int)
    requires |s| >= 1
    ensures m in s && forall x | x in s :: x <= m
  {
    var r := Sort(s);
    assert r[|r| - 1] in multiset(s);
    SortedBounds(r);
    SameElements(s, r);
    r[|r| - 1]
  }

  lemma SortedBounds(r: seq<int>)
    requires Sorted(r) && |r| >= 1
    ensures forall x | x in r :: r[0] <= x <= r[|r| - 1]
  {
  }

  lemma SameElements(s: seq<int>, r: seq<int>)
    requires multiset(s) == multiset(r)
    ensures forall x | x in s :: x in r
  {
    forall x | x in s ensures x in r {
      assert x in multiset(s);
    }
  }

  /** In a sorted sequence, entry k has at most k entries below it and more than k at or below it. */
  lemma {:induction false} SortedRank(r: seq<int>, k: nat)
    requires Sorted(r) && k < |r|
    ensures CountLess(r, r[k]) <= k < CountAtMost(r, r[k])
  {
    CountLessBound(r, r[k], k);
    CountAtMostBound(r, r[k], k);
  }

  lemma {:induction false} CountLessBound(r: seq<int>, v: int, k: nat)
    requires Sorted(r) && k < |r| && r[k] >= v
    ensures CountLess(r, v) <= k
  {
    if k == 0 {
      NoneBelow(r, v);
    } else {
      CountLessBound(r[1..], v, k - 1);
    }
  }

  lemma {:induction false} NoneBelow(r: seq<int>, v: int)
    requires Sorted(r) && (|r| == 0 || r[0] >= v)
    ensures CountLess(r, v) == 0
  {
    if |r| > 0 {
      NoneBelow(r[1..], v);
    }
  }

  lemma {:induction false} CountAtMostBound(r: seq<int>, v: int, k: nat)
    requires Sorted(r) && k < |r| && r[k] <= v
    ensures CountAtMost(r, v) > k
  {
    if k > 0 {
      CountAtMostBound(r[1..], v, k - 1);
    }
  }

  /** Fewer entries are at most v than are below any larger w. */
  lemma {:induction false} CountMonotone(s: seq<int>, v: int, w: int)
    requires v < w
    ensures CountAtMost(s, v) <= CountLess(s, w)
  {
    if |s| > 0 {
      CountMonotone(s[1..], v, w);
    }
  }

  /**
   * The rank property characterises the median: it is the only sample value
   * with at most n/2 samples below it and more than n/2 at or below it.
   */
  lemma MedianUnique(s: seq<int>, v: int)
    requires |s| >= 1 && v in s
    requires CountLess(s, v) <= |s| / 2 < CountAtMost(s, v)
    ensures v == MedianOf(s)
  {
    var m := MedianOf(s);
    if v < m {
      CountMonotone(s, v, m);
    } else if m < v {
      CountMonotone(s, m, v);
    }
  }

  /** When every entry but the one at `skip` equals v, at most one entry lies below v and at most one above. */
  lemma {:induction false} AllButOneCounts(s: seq<int>, v: int, skip: int)
    requires forall k | 0 <= k < |s| && k != skip :: s[k] == v
    ensures CountLess(s, v) <= (if 0 <= skip < |s| then 1 else 0)
    ensures CountAtMost(s, v) >= |s| - (if 0 <= skip < |s| then 1 else 0)
    decreases |s|
  {
    if |s| > 0 {
      AllButOneCounts(s[1..], v, skip - 1);
    }
  }

  /** A sample of three or more that has one value everywhere but one position has that value as its median. */
  lemma MajorityMedian(s: seq<int>, v: int, skip: nat)
    requires 3 <= |s| && skip < |s|
    requires forall k | 0 <= k < |s| && k != skip :: s[k] == v
    ensures MedianOf(s) == v
  {
    AllButOneCounts(s, v, skip);
    var other := if skip == 0 then 1 else 0;
    assert s[other] == v;
    MedianUnique(s, v);
  }

  /**
   * The median, minimum and maximum of a sample depend only on its
   * multiset of values, not on the order the values were collected in.
   */
  lemma OrderStatsOfMultiset(a: seq<int>, b: seq<int>)
    requires |a| >= 1 && multiset(a) == multiset(b)
    ensures |b| == |a|
    ensures MedianOf(a) == MedianOf(b) && MinOf(a) == MinOf(b) && MaxOf(a) == MaxOf(b)
  {
    assert |a| == |multiset(a)| == |multiset(b)| == |b|;
    SortedUnique(Sort(a), Sort(b));
  }

  /** Strictly between the smallest and the largest value. */
  predicate Inside(s: seq<int>, v: int)
    requires |s| >= 1
  {
    MinOf(s) < v < MaxOf(s)
  }

  /**
   * Being strictly inside the range means some value lies below and some
   * value lies above.
   */
  lemma InsideMeans(s: seq<int>, v: int)
    requires |s| >= 1
    ensures Inside(s, v) <==> (exists x | x in s :: x < v) && (exists y | y in s :: v < y)
  {
    var lo, hi := MinOf(s), MaxOf(s);
    if (exists x | x in s :: x < v) && (exists y | y in s :: v < y) {
      var x :| x in s && x < v;
      var y :| y in s && v < y;
      assert lo <= x && y <= hi;
    }
  }

  /** Exchange of neighbours j and j+1, as the bubble sort does. */
  function Swap(s: seq<int>, j: nat): (r: seq<int>)
    requires j + 1 < |s|
    ensures |r| == |s| && r[j] == s[j + 1] && r[j + 1] == s[j]
    ensures forall k | 0 <= k < |s| && k != j && k != j + 1 :: r[k] == s[k]
  {
    s[j := s[j + 1]][j + 1 := s[j]]
  }

  lemma SwapPermutes(s: seq<int>, j: nat, count: nat)
    requires j + 1 < count <= |s|
    ensures multiset(Swap(s, j)[..count]) == multiset(s[..count])
    ensures Swap(s, j)[count..] == s[count..]
  {
    var r := Swap(s, j);
    assert r[..count] == s[..j] + [s[j + 1], s[j]] + s[j + 2..count];
    assert s[..count] == s[..j] + [s[j], s[j + 1]] + s[j + 2..count];
  }

  /** The bubble sort's state after some outer passes: a sorted top part above the rest. */
  ghost predicate SortedAbove(s: seq<int>, count: int, top: int)
    requires 0 <= top <= count <= |s|
  {
    && (forall p, q | top <= p < q < count :: s[p] <= s[q])
    && (forall p, q | 0 <= p < top <= q < count :: s[p] <= s[q])
  }

  /**
   * One outer pass: compare and exchange neighbours from the bottom up to
   * `top`, carrying the largest of s[0..top] to position top-1.
   */
  method BubblePass(s: seq<int>, count: int, top: int) returns (r: seq<int>)
    requires 1 <= top <= count <= |s| && SortedAbove(s, count, top)
    ensures |r| == |s| && r[count..] == s[count..]
    ensures multiset(r[..count]) == multiset(s[..count])
    ensures SortedAbove(r, count, top - 1)
  {
    r := s;
    var j := 0;
    while j < top - 1
      invariant 0 <= j <= top - 1
      invariant |r| == |s| && r[count..] == s[count..]
      invariant multiset(r[..count]) == multiset(s[..count])
      invariant SortedAbove(r, count, top)
      invariant forall p | 0 <= p < j :: r[p] <= r[j]
    {
      if r[j] > r[j + 1] {
        SwapPermutes(r, j, count);
        r := Swap(r, j);
      }
      j := j + 1;
    }
  }

  /**
   * The source's median routine: bubble-sort the first `count` entries,
   * return entry count/2. The sorted buffer is returned too, since the
   * callers read its first and last entries.
   */
  method FindMedian(a: seq<int>, count: int) returns (m: int, sorted: seq<int>)
    requires 0 <= count <= |a| && count / 2 < |a|
    ensures |sorted| == |a|
    ensures Sorted(sorted[..count])
    ensures multiset(sorted[..count]) == multiset(a[..count])
    ensures sorted[count..] == a[count..]
    ensures m == sorted[count / 2]
    ensures count >= 1 ==> m == MedianOf(a[..count])
    ensures count >= 1 ==> sorted[0] == MinOf(a[..count]) && sorted[count - 1] == MaxOf(a[..count])
  {
    sorted := a;
    var i := 0;
    while i < count - 1
      invariant 0 <= i && (count >= 1 ==> i <= count - 1)
      invariant |sorted| == |a| && sorted[count..] == a[count..]
      invariant multiset(sorted[..count]) == multiset(a[..count])
      invariant count >= 1 ==> SortedAbove(sorted, count, count - i)
    {
      sorted := BubblePass(sorted, count, count - i);
      i := i + 1;
    }
    m := sorted[count / 2];
    if count >= 1 {
      assert Sorted(sorted[..count]);
      SortedPrefixStats(a, sorted, count);
    }
  }

  /** A sorted rearrangement of a's first count values holds their median, minimum and maximum where expected. */
  lemma SortedPrefixStats(a: seq<int>, sorted: seq<int>, count: int)
    requires 1 <= count <= |a| == |sorted|
    requires Sorted(sorted[..count]) && multiset(sorted[..count]) == multiset(a[..count])
    ensures sorted[count / 2] == MedianOf(a[..count])
    ensures sorted[0] == MinOf(a[..count]) && sorted[count - 1] == MaxOf(a[..count])
  {
    SortedUnique(sorted[..count], Sort(a[..count]));
    assert sorted[..count][count / 2] == sorted[count / 2];
  }
}
