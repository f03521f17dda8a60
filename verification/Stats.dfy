/** `computeStats`: minimum, median, maximum and average of cost figures, the sum taken in a uint64. */
module Stats {
  import opened Bytes

  datatype CostStats = CostStats(min: u64, p50: u64, max: u64, avg: u64)

  predicate Ascending(s: seq<u64>)
  {
    |s| <= 1 || (s[0] <= s[1] && Ascending(s[1..]))
  }

  function Insert(s: seq<u64>, x: u64): seq<u64>
  {
    if s == [] || x <= s[0] then [x] + s else [s[0]] + Insert(s[1..], x)
  }

  /** What `sort.Slice` leaves: see `SortIsUnique`. */
  function Sort(vals: seq<u64>): seq<u64>
  {
    if vals == [] then [] else Insert(Sort(vals[1..]), vals[0])
  }

  function Total(vals: seq<u64>): nat
  {
    if vals == [] then 0 else vals[0] + Total(vals[1..])
  }

  /** How many values are less than `v`. */
  function Below(vals: seq<u64>, v: nat): nat
  {
    if vals == [] then 0 else (if vals[0] < v then 1 else 0) + Below(vals[1..], v)
  }

  lemma {:induction false} InsertAscending(s: seq<u64>, x: u64)
    requires Ascending(s)
    ensures Ascending(Insert(s, x))
  {
    var r := Insert(s, x);
    if s == [] || x <= s[0] {
      assert r[1..] == s;
    } else {
      InsertAscending(s[1..], x);
      assert r[1..] == Insert(s[1..], x);
    }
  }

  lemma {:induction false} InsertAdds(s: seq<u64>, x: u64)
    ensures multiset(Insert(s, x)) == multiset(s) + multiset{x}
  {
    if s != [] && x > s[0] {
      InsertAdds(s[1..], x);
      HeadAndTail(s);
      assert Insert(s, x) == [s[0]] + Insert(s[1..], x);
    }
  }

  lemma HeadAndTail(s: seq<u64>)
    requires s != []
    ensures multiset(s) == multiset{s[0]} + multiset(s[1..])
  {
    assert s == [s[0]] + s[1..];
  }

  lemma {:induction false} InsertCounts(s: seq<u64>, x: u64, v: nat)
    ensures |Insert(s, x)| == |s| + 1
    ensures Total(Insert(s, x)) == Total(s) + x
    ensures Below(Insert(s, x), v) == Below(s, v) + (if x < v then 1 else 0)
  {
    var r := Insert(s, x);
    if s == [] || x <= s[0] {
      assert r[1..] == s;
    } else {
      InsertCounts(s[1..], x, v);
      assert r[1..] == Insert(s[1..], x);
    }
  }

  lemma {:induction false} SortPermutes(vals: seq<u64>)
    ensures Ascending(Sort(vals)) && multiset(Sort(vals)) == multiset(vals)
  {
    if vals != [] {
      SortPermutes(vals[1..]);
      InsertAscending(Sort(vals[1..]), vals[0]);
      InsertAdds(Sort(vals[1..]), vals[0]);
      HeadAndTail(vals);
    }
  }

  lemma {:induction false} SortCounts(vals: seq<u64>, v: nat)
    ensures |Sort(vals)| == |vals| && Total(Sort(vals)) == Total(vals) && Below(Sort(vals), v) == Below(vals, v)
  {
    if vals != [] {
      SortCounts(vals[1..], v);
      InsertCounts(Sort(vals[1..]), vals[0], v);
    }
  }

  lemma {:induction false} AscendingAt(s: seq<u64>, k: nat)
    requires Ascending(s) && k < |s|
    ensures s[0] <= s[k] <= s[|s| - 1]
  {
    if |s| > 1 {
      AscendingAt(s[1..], if k > 0 then k - 1 else 0);
    }
  }

  lemma {:induction false} LeastIsFirst(s: seq<u64>, x: u64)
    requires Ascending(s) && x in multiset(s)
    ensures s[0] <= x
  {
    var k :| 0 <= k < |s| && s[k] == x;
    AscendingAt(s, k);
  }

  lemma {:induction false} SameHead(s: seq<u64>, t: seq<u64>)
    requires Ascending(s) && Ascending(t) && s != [] && multiset(s) == multiset(t)
    ensures t != [] && s[0] == t[0]
  {
    assert s[0] in multiset(t);
    assert t[0] in multiset(s);
    LeastIsFirst(s, t[0]);
    LeastIsFirst(t, s[0]);
  }

  lemma {:induction false} SameTail(s: seq<u64>, t: seq<u64>)
    requires s != [] && t != [] && s[0] == t[0] && multiset(s) == multiset(t)
    ensures multiset(s[1..]) == multiset(t[1..])
  {
    HeadAndTail(s);
    HeadAndTail(t);
    assert multiset(s[1..]) == multiset(s) - multiset{s[0]};
    assert multiset(t[1..]) == multiset(t) - multiset{t[0]};
  }

  /** Two ascending arrangements of the same values are the same: any sorting algorithm would do. */
  lemma {:induction false} SortIsUnique(s: seq<u64>, t: seq<u64>)
    requires Ascending(s) && Ascending(t) && multiset(s) == multiset(t)
    ensures s == t
  {
    assert |multiset(s)| == |multiset(t)|;
    if s != [] {
      SameHead(s, t);
      SameTail(s, t);
      SortIsUnique(s[1..], t[1..]);
      assert s == [s[0]] + s[1..] && t == [t[0]] + t[1..];
    }
  }

  lemma {:induction false} TotalStep(s: seq<u64>, i: nat)
    requires i < |s|
    ensures Total(s[..i + 1]) == Total(s[..i]) + s[i]
  {
    if i == 0 {
      assert s[..1] == [s[0]];
    } else {
      TotalStep(s[1..], i - 1);
      assert s[..i + 1][1..] == s[1..][..i] && s[..i][1..] == s[1..][..i - 1];
    }
  }

  function StatsOf(vals: seq<u64>): CostStats
  {
    if vals == [] then CostStats(0, 0, 0, 0)
    else
      SortCounts(vals, 0);
      var s, n := Sort(vals), |vals|;
      CostStats(s[0], s[n / 2], s[n - 1], Quotient(Total(vals) % TWO64, n))
  }

  function Quotient(sum: u64, n: nat): (q: u64)
    requires n > 0
    ensures n * q <= sum < n * q + n
  {
    var q := sum / n;
    assert n * q + sum % n == sum;
    QuotientWithin(q, n, sum);
    q
  }

  lemma QuotientWithin(q: nat, n: nat, sum: nat)
    requires n > 0 && n * q <= sum
    ensures q <= sum
  {
  }

  /** `computeStats`. */
  method ComputeStats(vals: seq<u64>) returns (r: CostStats)
    ensures r == StatsOf(vals)
    ensures vals == [] ==> r == CostStats(0, 0, 0, 0)
  {
    if |vals| == 0 {
      return CostStats(0, 0, 0, 0);
    }
    var sorted := Sort(vals);
    var sum: u64 := 0;
    for i := 0 to |sorted|
      invariant sum == Total(sorted[..i]) % TWO64
    {
      TotalStep(sorted, i);
      sum := (sum + sorted[i]) % TWO64;
    }
    assert sorted[..|sorted|] == sorted;
    SortCounts(vals, 0);
    r := CostStats(sorted[0], sorted[|sorted| / 2], sorted[|sorted| - 1], Quotient(sum, |sorted|));
  }

  /** The statistics do not depend on the order in which the units finished. */
  lemma {:induction false} StatsIgnoreOrder(vals: seq<u64>, other: seq<u64>)
    requires multiset(vals) == multiset(other)
    ensures StatsOf(vals) == StatsOf(other)
  {
    SortPermutes(vals);
    SortPermutes(other);
    SortIsUnique(Sort(vals), Sort(other));
    SortCounts(vals, 0);
    SortCounts(other, 0);
  }

  lemma {:induction false} RankOf(s: seq<u64>, k: nat, v: nat)
    requires Ascending(s) && k < |s|
    ensures Below(s, v) <= k <==> v <= s[k]
  {
    if k > 0 {
      RankOf(s[1..], k - 1, v);
      AscendingAt(s, k);
    } else if v <= s[0] {
      NoneBelow(s, v);
    }
  }

  lemma {:induction false} NoneBelow(s: seq<u64>, v: nat)
    requires Ascending(s) && s != [] && v <= s[0]
    ensures Below(s, v) == 0
  {
    if |s| > 1 {
      NoneBelow(s[1..], v);
    }
  }

  /**
   * What the three order statistics are, for the values as they came: `p50` is the one value
   * with at most half of the others below it and more than half below or at it.
   */
  lemma {:induction false} OrderStatistics(vals: seq<u64>, v: nat)
    requires vals != []
    ensures var r := StatsOf(vals);
            && (Below(vals, v) == 0 <==> v <= r.min)
            && (Below(vals, v) <= |vals| / 2 <==> v <= r.p50)
            && (Below(vals, v) == |vals| <==> v > r.max)
  {
    SortPermutes(vals);
    SortCounts(vals, v);
    var s, n := Sort(vals), |vals|;
    RankOf(s, 0, v);
    RankOf(s, n / 2, v);
    RankOf(s, n - 1, v);
    BelowAtMost(vals, v);
  }

  lemma {:induction false} BelowAtMost(vals: seq<u64>, v: nat)
    ensures Below(vals, v) <= |vals|
  {
    if vals != [] {
      BelowAtMost(vals[1..], v);
    }
  }

  lemma {:induction false} TotalBounds(s: seq<u64>, lo: nat, hi: nat)
    requires forall i :: 0 <= i < |s| ==> lo <= s[i] <= hi
    ensures |s| * lo <= Total(s) <= |s| * hi
  {
    if s != [] {
      TotalBounds(s[1..], lo, hi);
      OneMore(|s|, lo);
      OneMore(|s|, hi);
    }
  }

  lemma OneMore(n: nat, x: nat)
    requires n > 0
    ensures n * x == x + (n - 1) * x
  {
  }

  lemma TimesOrder(n: nat, x: nat, y: nat)
    requires x <= y
    ensures n * x <= n * y
  {
  }

  lemma AverageWithin(n: nat, lo: nat, avg: nat, sum: nat, t: nat, hi: nat)
    requires n > 0 && n * avg <= sum < n * avg + n && sum <= t && n * lo <= t <= n * hi
    ensures avg <= hi && (sum == t ==> lo <= avg)
  {
    if avg > hi {
      TimesOrder(n, hi + 1, avg);
      assert false;
    }
    if sum == t && lo > avg {
      TimesOrder(n, avg + 1, lo);
      assert false;
    }
  }

  lemma {:induction false} AscendingTotal(s: seq<u64>)
    requires Ascending(s) && s != []
    ensures |s| * s[0] <= Total(s) <= |s| * s[|s| - 1]
  {
    forall i | 0 <= i < |s|
      ensures s[0] <= s[i] <= s[|s| - 1]
    {
      AscendingAt(s, i);
    }
    TotalBounds(s, s[0], s[|s| - 1]);
  }

  lemma {:induction false} Extremes(vals: seq<u64>)
    requires vals != []
    ensures var r, n := StatsOf(vals), |vals|;
            n * r.min <= Total(vals) <= n * r.max && r.min <= r.p50 <= r.max
  {
    var s := Sort(vals);
    SortPermutes(vals);
    SortCounts(vals, 0);
    AscendingAt(s, |vals| / 2);
    AscendingTotal(s);
  }

  /**
   * The average is the true one exactly when the sum fits 64 bits, and then lies between the
   * extremes; no overflow ever lifts it above the maximum.
   */
  lemma {:induction false} AverageExactIff(vals: seq<u64>)
    requires 0 < |vals| <= TWO64
    ensures var r, n := StatsOf(vals), |vals|;
            && (n * r.avg <= Total(vals) < n * r.avg + n <==> Total(vals) < TWO64)
            && (Total(vals) < TWO64 ==> r.min <= r.avg)
            && r.avg <= r.max && r.min <= r.p50 <= r.max
  {
    var r, t := StatsOf(vals), Total(vals);
    Extremes(vals);
    AverageWithin(|vals|, r.min, r.avg, t % TWO64, t, r.max);
  }

  /** Two costs of 2^63: the sum wraps to zero and the average is below both. */
  lemma {:induction false} AverageCanOverflow()
    ensures var half := 0x8000_0000_0000_0000;
            StatsOf([half, half]).avg == 0 && StatsOf([half, half]).min == half
  {
    var vals: seq<u64> := [0x8000_0000_0000_0000, 0x8000_0000_0000_0000];
    assert vals[1..] == [vals[1]] && Total(vals[1..]) == vals[1] + Total([]);
    assert Total(vals) == TWO64;
    assert Sort([vals[1]]) == Insert(Sort([]), vals[1]) == [vals[1]];
    assert Sort(vals) == [vals[0]] + [vals[1]];
  }
}
