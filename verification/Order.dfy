/** `sortResults`: the comparator for report rows, when it is an order, and what a stable sort by it yields. */
module Order {
  import opened Verdicts

  /** Go's `<` on strings. */
  predicate StringLess(a: string, b: string)
  {
    if b == [] then false
    else if a == [] then true
    else a[0] < b[0] || (a[0] == b[0] && StringLess(a[1..], b[1..]))
  }

  lemma {:induction false} StringTotal(a: string, b: string)
    ensures !(StringLess(a, b) && StringLess(b, a))
    ensures StringLess(a, b) || StringLess(b, a) <==> a != b
  {
    if a != [] && b != [] {
      StringTotal(a[1..], b[1..]);
      assert a == [a[0]] + a[1..] && b == [b[0]] + b[1..];
    }
  }

  lemma {:induction false} StringTransitive(a: string, b: string, c: string)
    requires StringLess(a, b) && StringLess(b, c)
    ensures StringLess(a, c)
  {
    if a != [] && a[0] == b[0] == c[0] {
      StringTransitive(a[1..], b[1..], c[1..]);
    }
  }

  /** The strings agree up to `k`, and there `a` ends or has the smaller character. */
  predicate Differ(a: string, b: string, k: nat)
  {
    && k <= |a| && k <= |b| && a[..k] == b[..k]
    && (if k == |a| then k < |b| else k < |b| && a[k] < b[k])
  }

  /** Lexicographic order, from the definition. */
  lemma {:induction false} StringLessIff(a: string, b: string)
    ensures StringLess(a, b) <==> exists k: nat :: Differ(a, b, k)
  {
    if a == [] {
      assert b != [] ==> Differ(a, b, 0);
    } else if b != [] && a[0] == b[0] {
      StringLessIff(a[1..], b[1..]);
      if k: nat :| Differ(a[1..], b[1..], k) {
        assert a[..k + 1] == [a[0]] + a[1..][..k] && b[..k + 1] == [b[0]] + b[1..][..k];
        assert Differ(a, b, k + 1);
      }
      if k: nat :| Differ(a, b, k) {
        assert a[..k][1..] == a[1..][..k - 1] && b[..k][1..] == b[1..][..k - 1];
        assert Differ(a[1..], b[1..], k - 1);
      }
    } else if b != [] {
      assert a[0] < b[0] ==> Differ(a, b, 0);
      if k: nat :| Differ(a, b, k) {
        assert k > 0 ==> a[..k][0] == b[..k][0];
      }
    }
  }

  /** By suite, then label, then block number. */
  predicate KeyLess(a: BlockResult, b: BlockResult)
  {
    if a.suite != b.suite then StringLess(a.suite, b.suite)
    else if a.name != b.name then StringLess(a.name, b.name)
    else a.blockNum < b.blockNum
  }

  /** The comparator: corpus rows go by block number alone, any pair with a zkevm row by the whole key. */
  predicate Less(a: BlockResult, b: BlockResult)
  {
    if a.kind == Zkevm || b.kind == Zkevm then KeyLess(a, b) else a.blockNum < b.blockNum
  }

  predicate Asymmetric(rs: seq<BlockResult>, i: nat, j: nat)
    requires i < |rs| && j < |rs|
  {
    Less(rs[i], rs[j]) ==> !Less(rs[j], rs[i])
  }

  predicate Cotransitive(rs: seq<BlockResult>, i: nat, j: nat, k: nat)
    requires i < |rs| && j < |rs| && k < |rs|
  {
    Less(rs[i], rs[k]) ==> Less(rs[i], rs[j]) || Less(rs[j], rs[k])
  }

  /** What a comparison sort needs of its comparator, on the rows at hand. */
  predicate StrictWeakOrder(rs: seq<BlockResult>)
  {
    && (forall i: nat, j: nat :: i < |rs| && j < |rs| ==> Asymmetric(rs, i, j))
    && (forall i: nat, j: nat, k: nat :: i < |rs| && j < |rs| && k < |rs| ==> Cotransitive(rs, i, j, k))
  }

  /** A zkevm row that lies strictly between two corpus rows by key must separate their block numbers. */
  predicate Separates(z: BlockResult, c: BlockResult, d: BlockResult)
  {
    z.kind == Zkevm && c.kind == Corpus && d.kind == Corpus
    && !KeyLess(z, c) && !KeyLess(d, z) && (KeyLess(c, z) || KeyLess(z, d))
    ==> c.blockNum < d.blockNum
  }

  predicate Separated(rs: seq<BlockResult>)
  {
    forall i, j, k :: 0 <= i < |rs| && 0 <= j < |rs| && 0 <= k < |rs| ==> Separates(rs[i], rs[j], rs[k])
  }

  lemma {:induction false} KeyOrder(a: BlockResult, b: BlockResult, c: BlockResult)
    ensures KeyLess(a, b) ==> !KeyLess(b, a)
    ensures KeyLess(a, c) ==> KeyLess(a, b) || KeyLess(b, c)
    ensures !KeyLess(a, b) && !KeyLess(b, a) ==> a.blockNum == b.blockNum
  {
    StringTotal(a.suite, b.suite);
    StringTotal(a.name, b.name);
    StringTotal(b.suite, c.suite);
    StringTotal(b.name, c.name);
    if KeyLess(a, c) && !KeyLess(a, b) && !KeyLess(b, c) {
      StringTotal(a.suite, c.suite);
      StringTotal(a.name, c.name);
      if StringLess(c.suite, b.suite) && StringLess(b.suite, a.suite) {
        StringTransitive(c.suite, b.suite, a.suite);
      }
      if StringLess(c.name, b.name) && StringLess(b.name, a.name) {
        StringTransitive(c.name, b.name, a.name);
      }
    }
  }

  /** The comparator is sound on three rows iff a zkevm row among them separates the corpus rows. */
  lemma {:induction false} TripleOrder(x: BlockResult, y: BlockResult, z: BlockResult)
    requires Separates(x, y, z) && Separates(y, z, x) && Separates(z, x, y)
    ensures Less(x, z) ==> Less(x, y) || Less(y, z)
  {
    KeyOrder(x, y, z);
    KeyOrder(y, x, z);
    KeyOrder(z, y, x);
    KeyOrder(x, z, y);
    KeyOrder(y, z, x);
  }

  /**
   * On exactly these lists the comparator is a strict weak order: those in which every zkevm row
   * separates the corpus rows on its two sides by block number.
   */
  lemma {:induction false} StrictWeakOrderIff(rs: seq<BlockResult>)
    ensures StrictWeakOrder(rs) <==> Separated(rs)
  {
    forall i: nat, j: nat | i < |rs| && j < |rs|
      ensures Asymmetric(rs, i, j)
    {
      KeyOrder(rs[i], rs[j], rs[j]);
    }
    if Separated(rs) {
      forall i: nat, j: nat, k: nat | i < |rs| && j < |rs| && k < |rs|
        ensures Cotransitive(rs, i, j, k)
      {
        assert Separates(rs[i], rs[j], rs[k]) && Separates(rs[j], rs[k], rs[i]) && Separates(rs[k], rs[i], rs[j]);
        TripleOrder(rs[i], rs[j], rs[k]);
      }
    }
    if StrictWeakOrder(rs) {
      forall i, j, k | 0 <= i < |rs| && 0 <= j < |rs| && 0 <= k < |rs|
        ensures Separates(rs[i], rs[j], rs[k])
      {
        assert Cotransitive(rs, j, k, i) && Cotransitive(rs, i, j, k);
      }
    }
  }

  /** In particular on every list of one format. */
  lemma {:induction false} SingleFormatIsOrdered(rs: seq<BlockResult>, kind: Format)
    requires forall i :: 0 <= i < |rs| ==> rs[i].kind == kind
    ensures StrictWeakOrder(rs)
  {
    StrictWeakOrderIff(rs);
  }

  /** A mixed list can go round in a circle: c before d, d before z, z before c. */
  lemma MixedCanCycle(c: BlockResult, d: BlockResult, z: BlockResult)
    requires c.kind == Corpus && d.kind == Corpus && z.kind == Zkevm
    requires c.blockNum == 1 && d.blockNum == 2 && c.suite == "c" && d.suite == "a" && z.suite == "b"
    ensures Less(c, d) && Less(d, z) && Less(z, c)
    ensures !StrictWeakOrder([c, d, z])
  {
    var rs := [c, d, z];
    assert rs[0] == c && rs[1] == d && rs[2] == z;
    assert "a"[0] < "b"[0] < "c"[0];
    assert Less(z, c) && !Less(c, z) && !Less(z, d) && Less(d, z) && Less(c, d) && !Less(d, c);
    assert !Cotransitive(rs, 2, 1, 0);
  }

  // ---- Stable sorting ----

  /** Row `a` has to come before row `b`: it is less, or equivalent and was there first. */
  predicate Before(rs: seq<BlockResult>, a: nat, b: nat)
    requires a < |rs| && b < |rs|
  {
    Less(rs[a], rs[b]) || (!Less(rs[b], rs[a]) && a < b)
  }

  predicate Indices(rs: seq<BlockResult>, p: seq<nat>)
  {
    forall i :: 0 <= i < |p| ==> p[i] < |rs|
  }

  /** `p` lists original positions in the order a stable sort leaves them. */
  predicate StablySorted(rs: seq<BlockResult>, p: seq<nat>)
  {
    Indices(rs, p) && forall i, j :: 0 <= i < j < |p| ==> Before(rs, p[i], p[j])
  }

  lemma {:induction false} BeforeIsTotal(rs: seq<BlockResult>, a: nat, b: nat, c: nat)
    requires StrictWeakOrder(rs) && a < |rs| && b < |rs| && c < |rs|
    ensures !(Before(rs, a, b) && Before(rs, b, a)) && (a != b ==> Before(rs, a, b) || Before(rs, b, a))
    ensures Before(rs, a, b) && Before(rs, b, c) ==> Before(rs, a, c)
  {
    assert Asymmetric(rs, a, b) && Asymmetric(rs, b, c) && Asymmetric(rs, a, c);
    assert Cotransitive(rs, a, c, b) && Cotransitive(rs, b, a, c) && Cotransitive(rs, c, b, a);
  }

  /** One stable sort: insertion from the right. */
  function Insert(rs: seq<BlockResult>, p: seq<nat>, a: nat): (q: seq<nat>)
    requires Indices(rs, p) && a < |rs|
    ensures Indices(rs, q) && forall k :: k in q <==> k in p || k == a
  {
    if p == [] then [a]
    else
      var front, last := p[..|p| - 1], p[|p| - 1];
      assert p == front + [last];
      if Before(rs, last, a) then p + [a] else Insert(rs, front, a) + [last]
  }

  function SortTo(rs: seq<BlockResult>, n: nat): (p: seq<nat>)
    requires n <= |rs|
    ensures Indices(rs, p) && forall k :: k in p <==> 0 <= k < n
  {
    if n == 0 then [] else Insert(rs, SortTo(rs, n - 1), n - 1)
  }

  predicate AllBefore(rs: seq<BlockResult>, p: seq<nat>, a: nat)
    requires Indices(rs, p) && a < |rs|
  {
    forall i :: 0 <= i < |p| ==> Before(rs, p[i], a)
  }

  lemma {:induction false} AppendSorted(rs: seq<BlockResult>, p: seq<nat>, a: nat)
    requires StablySorted(rs, p) && a < |rs| && AllBefore(rs, p, a)
    ensures StablySorted(rs, p + [a])
  {
    var q := p + [a];
    forall i, j | 0 <= i < j < |q|
      ensures Before(rs, q[i], q[j])
    {
      assert q[i] == p[i] && (j < |p| ==> q[j] == p[j]);
    }
  }

  lemma {:induction false} AllBeforeLast(rs: seq<BlockResult>, p: seq<nat>, a: nat)
    requires StrictWeakOrder(rs) && StablySorted(rs, p) && p != [] && a < |rs| && Before(rs, p[|p| - 1], a)
    ensures AllBefore(rs, p, a)
  {
    forall i | 0 <= i < |p|
      ensures Before(rs, p[i], a)
    {
      BeforeIsTotal(rs, p[i], p[|p| - 1], a);
    }
  }

  lemma {:induction false} InsertBefore(rs: seq<BlockResult>, front: seq<nat>, a: nat, last: nat)
    requires Indices(rs, front) && a < |rs| && last < |rs| && AllBefore(rs, front, last) && Before(rs, a, last)
    ensures AllBefore(rs, Insert(rs, front, a), last)
  {
    var q := Insert(rs, front, a);
    forall i | 0 <= i < |q|
      ensures Before(rs, q[i], last)
    {
      assert q[i] in q;
    }
  }

  lemma {:induction false} InsertSorted(rs: seq<BlockResult>, p: seq<nat>, a: nat)
    requires StrictWeakOrder(rs) && StablySorted(rs, p) && a < |rs| && a !in p
    ensures StablySorted(rs, Insert(rs, p, a))
  {
    if p != [] {
      var front, last := p[..|p| - 1], p[|p| - 1];
      if Before(rs, last, a) {
        AllBeforeLast(rs, p, a);
        AppendSorted(rs, p, a);
      } else {
        InsertSorted(rs, front, a);
        BeforeIsTotal(rs, last, a, a);
        assert AllBefore(rs, front, last);
        InsertBefore(rs, front, a, last);
        AppendSorted(rs, Insert(rs, front, a), last);
      }
    }
  }

  lemma {:induction false} SortToStep(rs: seq<BlockResult>, n: nat)
    requires 0 < n <= |rs|
    ensures SortTo(rs, n) == Insert(rs, SortTo(rs, n - 1), n - 1)
    ensures n - 1 !in SortTo(rs, n - 1)
  {
  }

  lemma {:induction false} SortToSorted(rs: seq<BlockResult>, n: nat)
    requires StrictWeakOrder(rs) && n <= |rs|
    ensures StablySorted(rs, SortTo(rs, n))
  {
    if n > 0 {
      SortToStep(rs, n);
      SortToSorted(rs, n - 1);
      InsertSorted(rs, SortTo(rs, n - 1), n - 1);
    }
  }

  /**
   * What the rows of a report look like: corpus rows by ascending block number, zkevm rows by
   * ascending suite, in a suite by ascending label, in a label by ascending block number, and
   * rows that agree in all of it as they were found.
   */
  lemma {:induction false} ReportOrder(rs: seq<BlockResult>, p: seq<nat>, i: nat, j: nat)
    requires StablySorted(rs, p) && i < j < |p|
    ensures var a, b := rs[p[i]], rs[p[j]];
            && (a.kind == Corpus && b.kind == Corpus ==>
                  a.blockNum <= b.blockNum && (a.blockNum == b.blockNum ==> p[i] < p[j]))
            && (a.kind == Zkevm && b.kind == Zkevm ==>
                  && (a.suite == b.suite || StringLess(a.suite, b.suite))
                  && (a.suite == b.suite ==> a.name == b.name || StringLess(a.name, b.name))
                  && (a.suite == b.suite && a.name == b.name ==>
                        a.blockNum <= b.blockNum && (a.blockNum == b.blockNum ==> p[i] < p[j])))
  {
    assert Before(rs, p[i], p[j]);
    StringTotal(rs[p[i]].suite, rs[p[j]].suite);
    StringTotal(rs[p[i]].name, rs[p[j]].name);
  }

  /** A sorted list of positions lists none twice. */
  lemma {:induction false} TailMembers(rs: seq<BlockResult>, p: seq<nat>, k: nat)
    requires StrictWeakOrder(rs) && StablySorted(rs, p) && p != []
    ensures k in p[1..] <==> k in p && k != p[0]
  {
    assert p == [p[0]] + p[1..];
    forall i | 0 < i < |p|
      ensures p[i] != p[0]
    {
      BeforeIsTotal(rs, p[0], p[i], p[i]);
    }
  }

  lemma {:induction false} SameFirst(rs: seq<BlockResult>, p: seq<nat>, q: seq<nat>)
    requires StrictWeakOrder(rs) && StablySorted(rs, p) && StablySorted(rs, q) && p != [] && q != []
    requires p[0] in q && q[0] in p
    ensures p[0] == q[0]
  {
    BeforeIsTotal(rs, p[0], q[0], q[0]);
  }

  predicate SameMembers(p: seq<nat>, q: seq<nat>)
  {
    (forall k :: k in p ==> k in q) && (forall k :: k in q ==> k in p)
  }

  lemma {:induction false} SameTails(rs: seq<BlockResult>, p: seq<nat>, q: seq<nat>)
    requires StrictWeakOrder(rs) && StablySorted(rs, p) && StablySorted(rs, q) && SameMembers(p, q)
    requires p != [] && q != [] && p[0] == q[0]
    ensures SameMembers(p[1..], q[1..])
  {
    forall k: nat
      ensures k in p[1..] <==> k in q[1..]
    {
      TailMembers(rs, p, k);
      TailMembers(rs, q, k);
    }
  }

  lemma {:induction false} SameOrder(rs: seq<BlockResult>, p: seq<nat>, q: seq<nat>)
    requires StrictWeakOrder(rs) && StablySorted(rs, p) && StablySorted(rs, q) && SameMembers(p, q)
    ensures p == q
  {
    assert p != [] ==> p[0] in q;
    assert q != [] ==> q[0] in p;
    if p != [] {
      SameFirst(rs, p, q);
      SameTails(rs, p, q);
      SameOrder(rs, p[1..], q[1..]);
      assert p == [p[0]] + p[1..] && q == [q[0]] + q[1..];
    }
  }

  /**
   * A stable sort has exactly one possible outcome on a list that passes `Separated`: report and
   * CSV rows come out in the same order on every run and by every stable algorithm.
   */
  lemma {:induction false} StableSortIsUnique(rs: seq<BlockResult>, p: seq<nat>)
    requires Separated(rs)
    requires |p| == |rs| && forall k: nat :: k in p <==> k < |rs|
    ensures StablySorted(rs, p) <==> p == SortTo(rs, |rs|)
  {
    StrictWeakOrderIff(rs);
    SortToSorted(rs, |rs|);
    if StablySorted(rs, p) {
      SameOrder(rs, p, SortTo(rs, |rs|));
    }
  }
}
