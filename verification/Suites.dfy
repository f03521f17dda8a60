/** `suiteMedians`: results grouped by suite in a map, and the median cost of each group. */
module Suites {
  import opened Bytes
  import opened Verdicts
  import opened Order
  import opened Stats

  /** The costs of one suite, in result order. */
  function CostsOf(good: seq<BlockResult>, suite: string): (vals: seq<u64>)
  {
    if good == [] then []
    else CostsOf(good[..|good| - 1], suite) +
         (if good[|good| - 1].suite == suite then [good[|good| - 1].costs.total] else [])
  }

  predicate HasSuite(good: seq<BlockResult>, suite: string)
  {
    exists i :: 0 <= i < |good| && good[i].suite == suite
  }

  predicate NamesAscend(names: seq<string>)
  {
    |names| <= 1 || (StringLess(names[0], names[1]) && NamesAscend(names[1..]))
  }

  function InsertName(names: seq<string>, x: string): (r: seq<string>)
    ensures forall n :: n in r <==> n in names || n == x
  {
    if names == [] || StringLess(x, names[0]) then [x] + names
    else
      assert names == [names[0]] + names[1..];
      [names[0]] + InsertName(names[1..], x)
  }

  /** `sort.Strings`; see `NamesDetermined`. */
  function SortNames(names: seq<string>): (r: seq<string>)
    ensures forall n :: n in r <==> n in names
  {
    if names == [] then []
    else
      assert names == [names[0]] + names[1..];
      InsertName(SortNames(names[1..]), names[0])
  }

  predicate Distinct(names: seq<string>)
  {
    forall i, j :: 0 <= i < j < |names| ==> names[i] != names[j]
  }

  lemma {:induction false} InsertNameAscends(names: seq<string>, x: string)
    requires NamesAscend(names) && x !in names
    ensures NamesAscend(InsertName(names, x))
  {
    var r := InsertName(names, x);
    if names == [] || StringLess(x, names[0]) {
      assert r[1..] == names;
    } else {
      StringTotal(x, names[0]);
      InsertNameAscends(names[1..], x);
      assert r[1..] == InsertName(names[1..], x);
    }
  }

  lemma {:induction false} SortNamesAscends(names: seq<string>)
    requires Distinct(names)
    ensures NamesAscend(SortNames(names))
  {
    if names != [] {
      assert forall i :: 0 <= i < |names[1..]| ==> names[1..][i] == names[i + 1];
      SortNamesAscends(names[1..]);
      InsertNameAscends(SortNames(names[1..]), names[0]);
    }
  }

  /** `suiteMedians`. */
  method SuiteMedians(good: seq<BlockResult>) returns (names: seq<string>, medians: seq<u64>)
    ensures NamesAscend(names) && forall n :: n in names <==> HasSuite(good, n)
    ensures |medians| == |names|
    ensures forall i :: 0 <= i < |names| ==> medians[i] == StatsOf(CostsOf(good, names[i])).p50
  {
    var bySuite := GroupBySuite(good);
    names := SortedKeys(bySuite);
    var groups := seq(|names|, i requires 0 <= i < |names| && names[i] in bySuite => bySuite[names[i]]);
    medians := Medians(groups);
    forall i | 0 <= i < |names|
      ensures medians[i] == StatsOf(CostsOf(good, names[i])).p50
    {
      assert groups[i] == CostsOf(good, names[i]);
    }
  }

  method Medians(groups: seq<seq<u64>>) returns (medians: seq<u64>)
    ensures |medians| == |groups|
    ensures forall i :: 0 <= i < |groups| ==> medians[i] == StatsOf(groups[i]).p50
  {
    medians := [];
    for i := 0 to |groups|
      invariant |medians| == i
      invariant forall k :: 0 <= k < i ==> medians[k] == StatsOf(groups[k]).p50
    {
      var st := ComputeStats(groups[i]);
      medians := medians + [st.p50];
    }
  }

  /** Collects the keys, in the unspecified order of Go's map iteration, and sorts them. */
  method SortedKeys(bySuite: map<string, seq<u64>>) returns (names: seq<string>)
    ensures NamesAscend(names) && forall n :: n in names <==> n in bySuite
  {
    var keys: seq<string>, left := [], bySuite.Keys;
    while left != {}
      invariant Distinct(keys) && forall n :: n in keys <==> n in bySuite && n !in left
      invariant left <= bySuite.Keys
    {
      var pick :| pick in left;
      keys := keys + [pick];
      left := left - {pick};
    }
    SortNamesAscends(keys);
    names := SortNames(keys);
  }

  method GroupBySuite(good: seq<BlockResult>) returns (bySuite: map<string, seq<u64>>)
    ensures forall n :: n in bySuite <==> HasSuite(good, n)
    ensures forall n :: n in bySuite ==> bySuite[n] == CostsOf(good, n)
  {
    bySuite := map[];
    for i := 0 to |good|
      invariant forall n :: n in bySuite <==> HasSuite(good[..i], n)
      invariant forall n :: HasSuite(good[..i], n) ==> bySuite[n] == CostsOf(good[..i], n)
    {
      var r := good[i];
      SuiteStep(good[..i], r);
      assert good[..i + 1] == good[..i] + [r];
      var group := if r.suite in bySuite then bySuite[r.suite] else [];
      bySuite := bySuite[r.suite := group + [r.costs.total]];
    }
    assert good[..|good|] == good;
  }

  lemma {:induction false} SuiteStep(good: seq<BlockResult>, r: BlockResult)
    ensures forall n :: HasSuite(good + [r], n) <==> HasSuite(good, n) || n == r.suite
    ensures forall n :: CostsOf(good + [r], n) == CostsOf(good, n) + (if n == r.suite then [r.costs.total] else [])
    ensures !HasSuite(good, r.suite) ==> CostsOf(good, r.suite) == []
  {
    var more := good + [r];
    assert more[..|good|] == good && more[|good|] == r;
    forall n
      ensures HasSuite(more, n) <==> HasSuite(good, n) || n == r.suite
    {
      if i :| 0 <= i < |good| && good[i].suite == n {
        assert more[i].suite == n;
      }
      if n == r.suite {
        assert more[|good|].suite == n;
      }
    }
    if !HasSuite(good, r.suite) {
      NoCosts(good, r.suite);
    }
  }

  lemma {:induction false} NoCosts(good: seq<BlockResult>, suite: string)
    requires !HasSuite(good, suite)
    ensures CostsOf(good, suite) == []
  {
    if good != [] {
      assert good[|good| - 1].suite != suite;
      assert forall i :: 0 <= i < |good| - 1 ==> good[..|good| - 1][i] == good[i];
      NoCosts(good[..|good| - 1], suite);
    }
  }

  // ---- What the grouping guarantees ----

  lemma {:induction false} FirstIsLeast(names: seq<string>, n: string)
    requires NamesAscend(names) && names != [] && n in names[1..]
    ensures StringLess(names[0], n) && n != names[0]
  {
    var rest := names[1..];
    if n != rest[0] {
      assert rest == [rest[0]] + rest[1..];
      FirstIsLeast(rest, n);
      StringTransitive(names[0], rest[0], n);
    }
    StringTotal(names[0], n);
  }

  lemma {:induction false} RestOfNames(names: seq<string>, n: string)
    requires NamesAscend(names) && names != []
    ensures n in names[1..] <==> n in names && n != names[0]
  {
    assert names == [names[0]] + names[1..];
    if n in names[1..] {
      FirstIsLeast(names, n);
    }
  }

  lemma {:induction false} SameFirstName(a: seq<string>, b: seq<string>)
    requires NamesAscend(a) && NamesAscend(b) && a != [] && b != [] && a[0] in b && b[0] in a
    ensures a[0] == b[0]
  {
    if a[0] != b[0] {
      RestOfNames(a, b[0]);
      RestOfNames(b, a[0]);
      FirstIsLeast(a, b[0]);
      FirstIsLeast(b, a[0]);
      StringTotal(a[0], b[0]);
    }
  }

  /** The suite rows of a report are determined by the suites present, whatever order the map yields them in. */
  lemma {:induction false} NamesDetermined(a: seq<string>, b: seq<string>)
    requires NamesAscend(a) && NamesAscend(b) && forall n :: n in a <==> n in b
    ensures a == b
  {
    assert a != [] ==> a[0] in b;
    assert b != [] ==> b[0] in a;
    if a != [] {
      SameFirstName(a, b);
      forall n
        ensures n in a[1..] <==> n in b[1..]
      {
        RestOfNames(a, n);
        RestOfNames(b, n);
      }
      NamesDetermined(a[1..], b[1..]);
      assert a == [a[0]] + a[1..] && b == [b[0]] + b[1..];
    }
  }

  /** The costs of all the groups together. */
  function AllGroups(good: seq<BlockResult>, names: seq<string>): multiset<u64>
  {
    if names == [] then multiset{} else multiset(CostsOf(good, names[0])) + AllGroups(good, names[1..])
  }

  lemma {:induction false} GroupsGrow(good: seq<BlockResult>, r: BlockResult, names: seq<string>)
    requires NamesAscend(names)
    ensures AllGroups(good + [r], names) == AllGroups(good, names) + One(r.suite in names, r.costs.total)
  {
    if names != [] {
      var first, rest, x := names[0], names[1..], r.costs.total;
      GroupsGrow(good, r, rest);
      GroupGrows(good, r, first);
      RestOfNames(names, r.suite);
      Merge(multiset(CostsOf(good, first)), AllGroups(good, rest), x, r.suite == first, r.suite in rest);
    }
  }

  lemma {:induction false} GroupGrows(good: seq<BlockResult>, r: BlockResult, suite: string)
    ensures multiset(CostsOf(good + [r], suite)) == multiset(CostsOf(good, suite)) + One(r.suite == suite, r.costs.total)
  {
    SuiteStep(good, r);
  }

  lemma Merge(a: multiset<u64>, b: multiset<u64>, x: u64, p: bool, q: bool)
    requires !(p && q)
    ensures (a + One(p, x)) + (b + One(q, x)) == (a + b) + One(p || q, x)
  {
  }

  lemma {:induction false} GroupsOfNothing(names: seq<string>)
    ensures AllGroups([], names) == multiset{}
  {
    if names != [] {
      GroupsOfNothing(names[1..]);
    }
  }

  function Costs(good: seq<BlockResult>): (vals: seq<u64>)
    ensures |vals| == |good|
  {
    seq(|good|, i requires 0 <= i < |good| => good[i].costs.total)
  }

  lemma {:induction false} CostsGrow(good: seq<BlockResult>, r: BlockResult)
    ensures multiset(Costs(good + [r])) == multiset(Costs(good)) + multiset{r.costs.total}
  {
    assert Costs(good + [r]) == Costs(good) + [r.costs.total];
  }

  /** Grouping conserves: with a row for every suite, each unit's cost is in exactly one group. */
  lemma {:induction false} GroupsConserve(good: seq<BlockResult>, names: seq<string>)
    requires NamesAscend(names) && forall i :: 0 <= i < |good| ==> good[i].suite in names
    ensures AllGroups(good, names) == multiset(Costs(good))
  {
    if good == [] {
      GroupsOfNothing(names);
    } else {
      var front, r := good[..|good| - 1], good[|good| - 1];
      assert good == front + [r];
      GroupsConserve(front, names);
      GroupsGrow(front, r, names);
      CostsGrow(front, r);
    }
  }
}
