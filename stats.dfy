/**
 * The reductions the script takes over a price column: sum, maximum,
 * minimum and median (`y.max()`, `y.min()`, `y.median()`), over exact reals.
 */
module Stats {
  function Sum(s: seq<real>): real {
    if s == [] then 0.0 else s[0] + Sum(s[1..])
  }

  /** `y.max()`: an element of `s` that no element exceeds. */
  function Max(s: seq<real>): (m: real)
    requires |s| > 0
    ensures m in s
    ensures forall i :: 0 <= i < |s| ==> s[i] <= m
  {
    if |s| == 1 then s[0]
    else
      var rest := Max(s[1..]);
      if s[0] >= rest then s[0] else rest
  }

  /** `y.min()`: an element of `s` that exceeds no element. */
  function Min(s: seq<real>): (m: real)
    requires |s| > 0
    ensures m in s
    ensures forall i :: 0 <= i < |s| ==> m <= s[i]
  {
    if |s| == 1 then s[0]
    else
      var rest := Min(s[1..]);
      if s[0] <= rest then s[0] else rest
  }

  predicate Sorted(s: seq<real>) {
    forall i, j :: 0 <= i < j < |s| ==> s[i] <= s[j]
  }

  function Insert(x: real, s: seq<real>): (r: seq<real>)
    requires Sorted(s)
    ensures Sorted(r) && |r| == |s| + 1
    ensures r[0] == if s == [] || x <= s[0] then x else s[0]
  {
    if s == [] then [x]
    else if x <= s[0] then [x] + s
    else
      var tail := Insert(x, s[1..]);
      assert s[0] <= tail[0];
      [s[0]] + tail
  }

  /** Inserting adds exactly the one value. */
  lemma {:induction false} InsertPermutes(x: real, s: seq<real>)
    requires Sorted(s)
    ensures multiset(Insert(x, s)) == multiset(s) + multiset{x}
  {
    if s != [] && x > s[0] {
      InsertPermutes(x, s[1..]);
      assert s == [s[0]] + s[1..];
    }
  }

  /** The values of `s` in ascending order. */
  function Sort(s: seq<real>): (r: seq<real>)
    ensures Sorted(r) && |r| == |s|
    ensures multiset(r) == multiset(s)
  {
    if s == [] then []
    else
      assert s == [s[0]] + s[1..];
      InsertPermutes(s[0], Sort(s[1..]));
      Insert(s[0], Sort(s[1..]))
  }

  /**
   * `y.median()` as pandas takes it over a column without missing values:
   * the middle of the sorted values, or the mean of the two middle ones
   * when there is an even number of them.
   */
  function Median(s: seq<real>): (m: real)
    requires |s| > 0
    ensures Min(s) <= m <= Max(s)
    ensures |s| % 2 == 1 ==> m in s
  {
    var t := Sort(s);
    ExtremesOfSorted(s);
    assert t[|s| / 2] in t;
    SortKeepsValues(s, t[|s| / 2]);
    MiddleOf(t)
  }

  /** The middle of an ordered list, or the mean of its two middle elements. */
  function MiddleOf(t: seq<real>): real
    requires |t| > 0
  {
    var n := |t|;
    if n % 2 == 1 then t[n / 2] else (t[n / 2 - 1] + t[n / 2]) / 2.0
  }

  /** Every element of `s` multiplied by `c`. */
  function Scale(s: seq<real>, c: real): (r: seq<real>)
    ensures |r| == |s| && forall i :: 0 <= i < |s| ==> r[i] == s[i] * c
  {
    seq(|s|, i requires 0 <= i < |s| => s[i] * c)
  }

  /** A sorted arrangement of a multiset is unique. */
  lemma {:induction false} SortedUnique(a: seq<real>, b: seq<real>)
    requires Sorted(a) && Sorted(b) && multiset(a) == multiset(b)
    ensures a == b
  {
    assert |multiset(a)| == |a| && |multiset(b)| == |b|;
    if a != [] {
      assert a[0] in multiset(b) && b[0] in multiset(a);
      SortedHeadIsLeast(a, b[0]);
      SortedHeadIsLeast(b, a[0]);
      assert a[0] == b[0];
      assert a == [a[0]] + a[1..] && b == [b[0]] + b[1..];
      assert multiset(a[1..]) == multiset(a) - multiset{a[0]};
      assert multiset(b[1..]) == multiset(b) - multiset{b[0]};
      SortedUnique(a[1..], b[1..]);
    }
  }

  lemma SortedHeadIsLeast(s: seq<real>, x: real)
    requires Sorted(s) && x in s
    ensures s[0] <= x
  {
    var i :| 0 <= i < |s| && s[i] == x;
  }

  /** The median depends only on the values, not on the order of the rows. */
  lemma MedianOrderIndependent(a: seq<real>, b: seq<real>)
    requires |a| > 0 && multiset(a) == multiset(b)
    ensures |b| == |a| && Median(a) == Median(b)
  {
    assert |multiset(a)| == |a| && |multiset(b)| == |b|;
    SortedUnique(Sort(a), Sort(b));
  }

  /** Sorting neither adds nor loses a value. */
  lemma SortKeepsValues(s: seq<real>, x: real)
    ensures x in Sort(s) <==> x in s
  {
    assert x in Sort(s) <==> x in multiset(Sort(s));
    assert x in s <==> x in multiset(s);
  }

  lemma SortedLastIsGreatest(s: seq<real>, x: real)
    requires Sorted(s) && x in s
    ensures x <= s[|s| - 1]
  {
    var i :| 0 <= i < |s| && s[i] == x;
  }

  lemma MinAtMostMember(s: seq<real>, x: real)
    requires x in s
    ensures Min(s) <= x
  {
    var i :| 0 <= i < |s| && s[i] == x;
  }

  lemma MaxAtLeastMember(s: seq<real>, x: real)
    requires x in s
    ensures x <= Max(s)
  {
    var i :| 0 <= i < |s| && s[i] == x;
  }

  lemma MemberOfConstant(s: seq<real>, v: real, x: real)
    requires (forall i :: 0 <= i < |s| ==> s[i] == v) && x in s
    ensures x == v
  {
    var i :| 0 <= i < |s| && s[i] == x;
  }

  lemma ConstantMedian(s: seq<real>, v: real)
    requires |s| > 0 && forall i :: 0 <= i < |s| ==> s[i] == v
    ensures Median(s) == v
  {
    var t := Sort(s);
    var h := |s| / 2;
    assert t[h] in t;
    SortKeepsValues(s, t[h]);
    MemberOfConstant(s, v, t[h]);
    if |s| % 2 == 0 {
      assert t[h - 1] in t;
      SortKeepsValues(s, t[h - 1]);
      MemberOfConstant(s, v, t[h - 1]);
    }
    assert Median(s) == MiddleOf(t);
  }

  /** When every value is the same, the median, maximum and minimum are that value. */
  lemma ConstantStatistics(s: seq<real>, v: real)
    requires |s| > 0 && forall i :: 0 <= i < |s| ==> s[i] == v
    ensures Median(s) == v && Max(s) == v && Min(s) == v
  {
    ConstantMedian(s, v);
    MemberOfConstant(s, v, Max(s));
    MemberOfConstant(s, v, Min(s));
  }

  /** Maximum and minimum coincide exactly when every value is the same. */
  lemma MaxEqualsMinIffConstant(s: seq<real>)
    requires |s| > 0
    ensures Max(s) == Min(s) <==> forall i :: 0 <= i < |s| ==> s[i] == s[0]
  {
    if forall i :: 0 <= i < |s| ==> s[i] == s[0] {
      ConstantStatistics(s, s[0]);
    }
  }

  lemma {:induction false} SumScale(s: seq<real>, c: real)
    ensures Sum(Scale(s, c)) == Sum(s) * c
  {
    if s != [] {
      SumScale(s[1..], c);
      assert forall i :: 0 <= i < |s| - 1 ==> Scale(s, c)[1..][i] == Scale(s[1..], c)[i];
      assert Scale(s, c)[1..] == Scale(s[1..], c);
      assert Sum(Scale(s, c)) == s[0] * c + Sum(s[1..]) * c;
      assert s[0] * c + Sum(s[1..]) * c == (s[0] + Sum(s[1..])) * c;
    }
  }

  lemma {:induction false} SumMonotone(a: seq<real>, b: seq<real>)
    requires |a| == |b| && forall i :: 0 <= i < |a| ==> a[i] <= b[i]
    ensures Sum(a) <= Sum(b)
  {
    if a != [] {
      SumMonotone(a[1..], b[1..]);
    }
  }

  lemma {:induction false} SumZeroIffAllZero(s: seq<real>)
    requires forall i :: 0 <= i < |s| ==> s[i] >= 0.0
    ensures Sum(s) >= 0.0
    ensures Sum(s) == 0.0 <==> forall i :: 0 <= i < |s| ==> s[i] == 0.0
  {
    if s != [] {
      SumZeroIffAllZero(s[1..]);
      assert forall i :: 1 <= i < |s| ==> s[i] == s[1..][i - 1];
    }
  }

  /** The extremes are the two ends of the sorted values. */
  lemma ExtremesOfSorted(s: seq<real>)
    requires |s| > 0
    ensures Min(s) == Sort(s)[0] && Max(s) == Sort(s)[|s| - 1]
  {
    var t := Sort(s);
    var n := |s|;
    SortKeepsValues(s, Min(s));
    SortKeepsValues(s, Max(s));
    SortedHeadIsLeast(t, Min(s));
    SortedLastIsGreatest(t, Max(s));
    assert t[0] in t && t[n - 1] in t;
    SortKeepsValues(s, t[0]);
    SortKeepsValues(s, t[n - 1]);
    MinAtMostMember(s, t[0]);
    MaxAtLeastMember(s, t[n - 1]);
  }
}
