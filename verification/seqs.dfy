/**
 * Facts about duplicate-free sequences, used to compare the hand-written
 * neighbour lists with the windows they are meant to enumerate.
 */
module Seqs {

  /** No element occurs twice. */
  ghost predicate NoDup(s: seq<int>)
  {
    forall i, j | 0 <= i < j < |s| :: s[i] != s[j]
  }

  /** The set of elements of a sequence. */
  ghost function Elems(s: seq<int>): set<int>
  {
    set x | x in s
  }

  lemma {:induction false} NoDupTail(s: seq<int>)
    requires |s| > 0 && NoDup(s)
    ensures NoDup(s[1..]) && s[0] !in s[1..]
  {
    forall j | 0 <= j < |s| - 1 ensures s[1..][j] != s[0] {
      assert s[1..][j] == s[j + 1];
    }
  }

  /** Duplicate-freedom of a non-empty sequence, head and tail apart. */
  lemma NoDupCons(s: seq<int>)
    requires |s| > 0
    ensures NoDup(s) <==> s[0] !in s[1..] && NoDup(s[1..])
  {
    var t := s[1..];
    if NoDup(s) {
      NoDupTail(s);
    }
    if s[0] !in t && NoDup(t) {
      forall i, j | 0 <= i < j < |s| ensures s[i] != s[j] {
        assert s[j] == t[j - 1];
        if i > 0 {
          assert s[i] == t[i - 1];
        } else {
          assert t[j - 1] in t;
        }
      }
    }
  }

  /**
   * A sequence has at least as many positions as distinct elements, and
   * exactly as many precisely when it has no duplicates.
   */
  lemma {:induction false} ElemsCard(s: seq<int>)
    ensures |Elems(s)| <= |s|
    ensures |Elems(s)| == |s| <==> NoDup(s)
  {
    if |s| == 0 {
      assert Elems(s) == {};
    } else {
      var t := s[1..];
      ElemsCard(t);
      NoDupCons(s);
      assert Elems(s) == {s[0]} + Elems(t) by {
        assert s == [s[0]] + t;
      }
      if s[0] in t {
        assert Elems(s) == Elems(t);
      } else {
        assert |Elems(s)| == 1 + |Elems(t)|;
      }
    }
  }

  /**
   * A subset is no larger than its superset, and one as large as its
   * superset is the whole superset.
   */
  lemma SubsetCard(a: set<int>, b: set<int>)
    requires a <= b
    ensures |a| <= |b|
    ensures |a| == |b| ==> a == b
  {
    var d := b - a;
    assert b == a + d;
    assert a * d == {};
    if |a| == |b| {
      assert d == {};
    }
  }

  /** The integers 1 .. n. */
  ghost function UpTo(n: nat): set<int>
  {
    if n == 0 then {} else UpTo(n - 1) + {n}
  }

  lemma {:induction false} UpToCard(n: nat)
    ensures forall x :: x in UpTo(n) <==> 1 <= x <= n
    ensures |UpTo(n)| == n
  {
    if n > 0 {
      UpToCard(n - 1);
    }
  }

  /** A duplicate-free sequence drawn from 1 .. n has at most n elements. */
  lemma BoundedNoDup(s: seq<int>, n: nat)
    requires NoDup(s)
    requires forall k | 0 <= k < |s| :: 1 <= s[k] <= n
    ensures |s| <= n
  {
    ElemsCard(s);
    UpToCard(n);
    assert Elems(s) <= UpTo(n);
    SubsetCard(Elems(s), UpTo(n));
  }

  /** Rearranging a sequence keeps its length and its elements. */
  lemma PermutationKeeps(a: seq<int>, b: seq<int>)
    requires multiset(a) == multiset(b)
    ensures |a| == |b|
    ensures forall x :: x in a <==> x in b
  {
    assert |multiset(a)| == |multiset(b)|;
    forall x ensures x in a <==> x in b {
      assert x in a <==> x in multiset(a);
      assert x in b <==> x in multiset(b);
    }
  }

  /** In a duplicate-free sequence every element occurs exactly once. */
  lemma {:induction false} NoDupMultiplicity(s: seq<int>, x: int)
    requires NoDup(s)
    ensures multiset(s)[x] == if x in s then 1 else 0
  {
    if |s| > 0 {
      NoDupTail(s);
      NoDupMultiplicity(s[1..], x);
      assert s == [s[0]] + s[1..];
      assert multiset(s) == multiset{s[0]} + multiset(s[1..]);
    }
  }

  /** Two duplicate-free sequences with the same elements are permutations. */
  lemma SameElemsPermutation(s: seq<int>, t: seq<int>)
    requires NoDup(s) && NoDup(t)
    requires forall x :: x in s <==> x in t
    ensures multiset(s) == multiset(t)
  {
    forall x ensures multiset(s)[x] == multiset(t)[x] {
      NoDupMultiplicity(s, x);
      NoDupMultiplicity(t, x);
    }
  }

  /**
   * Pigeonhole: if `t` contains every element of the duplicate-free `w` and
   * is no longer than `w`, then `t` is a rearrangement of `w`.
   */
  lemma Pigeonhole(t: seq<int>, w: seq<int>)
    requires NoDup(w)
    requires forall x | x in w :: x in t
    requires |t| == |w|
    ensures NoDup(t)
    ensures forall x :: x in t <==> x in w
    ensures multiset(t) == multiset(w)
  {
    ElemsCard(w);
    ElemsCard(t);
    assert Elems(w) <= Elems(t);
    SubsetCard(Elems(w), Elems(t));
    forall x ensures x in t <==> x in w {
      assert x in t <==> x in Elems(t);
      assert x in w <==> x in Elems(w);
    }
    SameElemsPermutation(t, w);
  }

  /** Concatenating duplicate-free sequences with no common element. */
  lemma NoDupAppend(a: seq<int>, b: seq<int>)
    requires NoDup(a) && NoDup(b)
    requires forall x | x in a :: x !in b
    ensures NoDup(a + b)
  {
    var s := a + b;
    forall i, j | 0 <= i < j < |s| ensures s[i] != s[j] {
      if j < |a| {
        assert s[i] == a[i] && s[j] == a[j];
      } else if i >= |a| {
        assert s[i] == b[i - |a|] && s[j] == b[j - |a|];
      } else {
        assert s[i] == a[i] && s[j] == b[j - |a|];
        assert a[i] in a;
      }
    }
  }

  /** The table entries for a list of keys, in list order. */
  function Lookup(t: map<int, int>, keys: seq<int>): (v: seq<int>)
    requires forall k | 0 <= k < |keys| :: keys[k] in t
    ensures |v| == |keys|
    ensures forall k | 0 <= k < |v| :: v[k] == t[keys[k]]
  {
    seq(|keys|, k requires 0 <= k < |keys| => t[keys[k]])
  }

  lemma LookupAppend(t: map<int, int>, a: seq<int>, b: seq<int>)
    requires forall x | x in a + b :: x in t
    ensures forall k | 0 <= k < |a| :: a[k] in t
    ensures forall k | 0 <= k < |b| :: b[k] in t
    ensures Lookup(t, a + b) == Lookup(t, a) + Lookup(t, b)
  {
    forall k | 0 <= k < |a| ensures a[k] in t {
      assert a[k] == (a + b)[k];
    }
    forall k | 0 <= k < |b| ensures b[k] in t {
      assert b[k] == (a + b)[|a| + k];
    }
  }

  /** Where the head of `a` sits in a rearrangement `b` of it. */
  lemma SplitAt(a: seq<int>, b: seq<int>) returns (p: nat)
    requires multiset(a) == multiset(b) && |a| > 0
    ensures p < |b| && b == b[..p] + [a[0]] + b[p + 1..]
    ensures multiset(a[1..]) == multiset(b[..p] + b[p + 1..])
  {
    var x := a[0];
    assert x in multiset(b);
    p :| 0 <= p < |b| && b[p] == x;
    var left, right := b[..p], b[p + 1..];
    assert b == left + [x] + right;
    assert a == [x] + a[1..];
    assert multiset(a[1..]) == multiset(a) - multiset{x};
    assert multiset(left + right) == multiset(b) - multiset{x};
  }

  /** Rearranging the keys rearranges the looked-up values the same way. */
  lemma {:induction false} LookupPermutation(t: map<int, int>, a: seq<int>, b: seq<int>)
    requires forall k | 0 <= k < |a| :: a[k] in t
    requires multiset(a) == multiset(b)
    ensures forall k | 0 <= k < |b| :: b[k] in t
    ensures multiset(Lookup(t, a)) == multiset(Lookup(t, b))
    decreases |a|
  {
    forall k | 0 <= k < |b| ensures b[k] in t {
      assert b[k] in multiset(a);
      var q :| 0 <= q < |a| && a[q] == b[k];
    }
    if |a| == 0 {
      assert |b| == |multiset(b)| == 0;
    } else {
      var p := SplitAt(a, b);
      var x, left, right := a[0], b[..p], b[p + 1..];
      assert forall y | y in left + right :: y in b;
      LookupPermutation(t, a[1..], left + right);
      LookupAppend(t, left, right);
      LookupAppend(t, left + [x], right);
      LookupAppend(t, left, [x]);
      assert a == [x] + a[1..];
      LookupAppend(t, [x], a[1..]);
    }
  }
}
