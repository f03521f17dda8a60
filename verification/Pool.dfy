/** `pool.Pool`: the head poller with its bounded queue, and the shared round-robin counter. */
module Pool {
  import opened Bytes

  const HEADS_CAPACITY := 32

  // ---- The head stream ----

  /**
   * `seen` and the `Heads` channel, with the history of a run beside them: what the nodes
   * answered, what the consumer received, what was dropped because it was behind.
   */
  datatype Stream = Stream(
    seen: u64, queue: seq<u64>, polled: seq<u64>, received: seq<u64>, dropped: seq<u64>)

  const START := Stream(0, [], [], [], [])

  function OnPoll(s: Stream, num: u64): Stream
  {
    var t := s.(polled := s.polled + [num]);
    if num <= s.seen then t
    else if |s.queue| < HEADS_CAPACITY then t.(seen := num, queue := s.queue + [num])
    else t.(seen := num, dropped := s.dropped + [num])
  }

  function OnReceive(s: Stream): Stream
    requires s.queue != []
  {
    s.(queue := s.queue[1..], received := s.received + [s.queue[0]])
  }

  /** `robin.Add(1)`: the counter is a uint64. */
  function Bump(robin: u64): (r: u64)
    ensures r == if robin == TWO64 - 1 then 0 else robin + 1
  {
    (robin + 1) % TWO64
  }

  class Pool {
    const nodes: seq<string>
    var robin: u64
    var heads: seq<u64>
    var seen: u64

    constructor (nodes: seq<string>)
      ensures this.nodes == nodes && robin == 0 && heads == [] && seen == 0
    {
      this.nodes := nodes;
      robin, heads, seen := 0, [], 0;
    }

    /** `next`: `robin.Add(1) - 1` picks the node. */
    method Next() returns (url: string)
      modifies this`robin
      ensures url == if |nodes| == 0 then "" else nodes[old(robin) % |nodes|]
      ensures robin == if |nodes| == 0 then old(robin) else Bump(old(robin))
    {
      if |nodes| == 0 {
        return "";
      }
      var added := Bump(robin);
      robin := added;
      var idx := if added == 0 then TWO64 - 1 else added - 1;
      return nodes[idx % |nodes|];
    }

    /** `Pick` shares the counter with the poller. */
    method Pick() returns (url: string)
      modifies this`robin
      ensures url == if |nodes| == 0 then "" else nodes[old(robin) % |nodes|]
      ensures robin == if |nodes| == 0 then old(robin) else Bump(old(robin))
    {
      url := Next();
    }

    /** `poll`: `replies` is what each node answers to eth_blockNumber; None is an error. */
    method Poll(replies: string -> Option<u64>)
      modifies this`robin, this`heads, this`seen
      ensures robin == if |nodes| == 0 then old(robin) else Bump(old(robin))
      ensures |nodes| == 0 ==> heads == old(heads) && seen == old(seen)
      ensures |nodes| > 0 ==>
                match replies(nodes[old(robin) % |nodes|])
                case None => heads == old(heads) && seen == old(seen)
                case Some(num) =>
                  && seen == (if num > old(seen) then num else old(seen))
                  && heads == (if num > old(seen) && |old(heads)| < 32 then old(heads) + [num] else old(heads))
                  && var s := OnPoll(Stream(old(seen), old(heads), [], [], []), num);
                  seen == s.seen && heads == s.queue
    {
      var url := Next();
      if |nodes| == 0 {
        return;
      }
      var reply := replies(url);
      if reply.None? {
        return;
      }
      var num := reply.value;
      if num > seen {
        seen := num;
        if |heads| < HEADS_CAPACITY {
          heads := heads + [num];
        }
      }
    }

    /** `<-p.Heads` in the block loop, which blocks until there is a head. */
    method ReceiveHead() returns (num: u64)
      requires heads != []
      modifies this`heads
      ensures num == old(heads)[0]
      ensures heads == OnReceive(Stream(seen, old(heads), [], [], [])).queue
    {
      num := heads[0];
      heads := heads[1..];
    }
  }

  datatype Event = Polled(num: u64) | Received

  function Run(s: Stream, es: seq<Event>): Stream
    decreases |es|
  {
    if es == [] then s
    else
      var t := Run(s, es[..|es| - 1]);
      match es[|es| - 1]
      case Polled(num) => OnPoll(t, num)
      case Received => if t.queue == [] then t else OnReceive(t)
  }

  function Max(s: seq<u64>): u64
  {
    if s == [] then 0
    else var m := Max(s[..|s| - 1]); if s[|s| - 1] > m then s[|s| - 1] else m
  }

  /** The answers that exceeded every answer before them: the heads a consumer should hear of. */
  function NewHeads(s: seq<u64>): seq<u64>
  {
    if s == [] then []
    else NewHeads(s[..|s| - 1]) + if s[|s| - 1] > Max(s[..|s| - 1]) then [s[|s| - 1]] else []
  }

  predicate Increasing(s: seq<u64>)
  {
    forall i, j :: 0 <= i < j < |s| ==> s[i] < s[j]
  }

  predicate StreamInv(s: Stream)
  {
    && s.seen == Max(s.polled)
    && |s.queue| <= HEADS_CAPACITY
    && Increasing(s.received + s.queue)
    && (forall i :: 0 <= i < |s.received + s.queue| ==> 0 < (s.received + s.queue)[i] <= s.seen)
    && multiset(NewHeads(s.polled)) == multiset(s.received + s.queue) + multiset(s.dropped)
    && (s.dropped == [] ==> NewHeads(s.polled) == s.received + s.queue)
  }

  lemma {:induction false} AppendLarger(heads: seq<u64>, seen: u64, num: u64)
    requires Increasing(heads) && forall i :: 0 <= i < |heads| ==> 0 < heads[i] <= seen
    requires seen < num
    ensures Increasing(heads + [num]) && forall i :: 0 <= i < |heads + [num]| ==> 0 < (heads + [num])[i] <= num
  {
    var more := heads + [num];
    assert forall i :: 0 <= i < |heads| ==> more[i] == heads[i];
  }

  lemma {:induction false} PollKeepsOrder(s: Stream, num: u64)
    requires StreamInv(s) && s.seen < num
    ensures var t := OnPoll(s, num);
            && |t.queue| <= HEADS_CAPACITY && Increasing(t.received + t.queue)
            && (forall i :: 0 <= i < |t.received + t.queue| ==> 0 < (t.received + t.queue)[i] <= t.seen)
  {
    var heads := s.received + s.queue;
    if |s.queue| < HEADS_CAPACITY {
      AppendLarger(heads, s.seen, num);
      assert s.received + (s.queue + [num]) == heads + [num];
    }
  }

  lemma {:induction false} PollConserves(s: Stream, num: u64)
    requires StreamInv(s) && s.seen < num
    ensures var t := OnPoll(s, num);
            && t.seen == Max(t.polled)
            && multiset(NewHeads(t.polled)) == multiset(t.received + t.queue) + multiset(t.dropped)
            && (t.dropped == [] ==> NewHeads(t.polled) == t.received + t.queue)
  {
    var t, heads := OnPoll(s, num), s.received + s.queue;
    assert t.polled[..|s.polled|] == s.polled;
    assert NewHeads(t.polled) == NewHeads(s.polled) + [num];
    Recount(multiset(heads), multiset(s.dropped), num);
    if |s.queue| < HEADS_CAPACITY {
      assert t.received + t.queue == heads + [num];
    }
  }

  lemma {:induction false} PollIgnored(s: Stream, num: u64)
    requires StreamInv(s) && num <= s.seen
    ensures StreamInv(OnPoll(s, num))
  {
    var polled := s.polled + [num];
    assert polled[..|s.polled|] == s.polled;
    assert NewHeads(polled) == NewHeads(s.polled) + [] == NewHeads(s.polled);
  }

  lemma {:induction false} PollInv(s: Stream, num: u64)
    requires StreamInv(s)
    ensures StreamInv(OnPoll(s, num))
  {
    if num <= s.seen {
      PollIgnored(s, num);
    } else {
      PollKeepsOrder(s, num);
      PollConserves(s, num);
    }
  }

  lemma Recount(a: multiset<u64>, b: multiset<u64>, x: u64)
    ensures a + b + multiset{x} == (a + multiset{x}) + b == a + (b + multiset{x})
  {
  }

  lemma {:induction false} ReceiveInv(s: Stream)
    requires StreamInv(s) && s.queue != []
    ensures StreamInv(OnReceive(s))
  {
    assert OnReceive(s).received + OnReceive(s).queue == s.received + s.queue;
  }

  lemma {:induction false} RunInv(es: seq<Event>)
    ensures StreamInv(Run(START, es))
  {
    if es == [] {
      assert START.received + START.queue == [];
    } else {
      var t := Run(START, es[..|es| - 1]);
      RunInv(es[..|es| - 1]);
      match es[|es| - 1]
      case Polled(num) => PollInv(t, num);
      case Received => if t.queue != [] { ReceiveInv(t); }
    }
  }

  /** The event loses a head: a node reports a new maximum while the queue is full. */
  predicate Loses(s: Stream, e: Event)
  {
    e.Polled? && e.num > s.seen && |s.queue| == 32
  }

  lemma {:induction false} DropStep(es: seq<Event>, i: nat)
    requires i < |es|
    ensures var s, t := Run(START, es[..i]), Run(START, es[..i + 1]);
            t.dropped == s.dropped + if Loses(s, es[i]) then [es[i].num] else []
  {
    var s := Run(START, es[..i]);
    RunInv(es[..i]);
    assert es[..i + 1][..i] == es[..i];
  }

  lemma {:induction false} NoneLost(es: seq<Event>, n: nat)
    requires n <= |es| && forall i :: 0 <= i < n ==> !Loses(Run(START, es[..i]), es[i])
    ensures Run(START, es[..n]).dropped == []
  {
    if n > 0 {
      NoneLost(es, n - 1);
      DropStep(es, n - 1);
    }
  }

  /**
   * Over every run of polls and receives: the consumer hears strictly increasing heads, never
   * more than 32 wait, and every new maximum the nodes reported was received, is waiting, or was
   * dropped, exactly once. It was dropped iff 32 were waiting when it was reported; a run in
   * which that never happens delivers exactly the new maxima, in order.
   */
  lemma {:induction false} HeadStream(es: seq<Event>)
    ensures var s := Run(START, es);
            && s.seen == Max(s.polled)
            && |s.queue| <= 32
            && Increasing(s.received)
            && multiset(NewHeads(s.polled)) == multiset(s.received) + multiset(s.queue) + multiset(s.dropped)
            && (s.dropped == [] ==> NewHeads(s.polled) == s.received + s.queue)
    ensures forall i :: 0 <= i < |es| ==>
              Run(START, es[..i + 1]).dropped
              == Run(START, es[..i]).dropped + if Loses(Run(START, es[..i]), es[i]) then [es[i].num] else []
    ensures (forall i :: 0 <= i < |es| ==> !Loses(Run(START, es[..i]), es[i])) ==>
              var s := Run(START, es);
              NewHeads(s.polled) == s.received + s.queue
  {
    RunInv(es);
    var s := Run(START, es);
    assert forall i :: 0 <= i < |s.received| ==> s.received[i] == (s.received + s.queue)[i];
    forall i | 0 <= i < |es|
      ensures Run(START, es[..i + 1]).dropped
           == Run(START, es[..i]).dropped + if Loses(Run(START, es[..i]), es[i]) then [es[i].num] else []
    {
      DropStep(es, i);
    }
    if forall i :: 0 <= i < |es| ==> !Loses(Run(START, es[..i]), es[i]) {
      NoneLost(es, |es|);
      assert es[..|es|] == es;
    }
  }

  // ---- Round robin ----

  /** The counter after `k` calls of `next`, by whichever goroutines. */
  function CounterAfter(c: u64, k: nat): u64
  {
    if k == 0 then c else Bump(CounterAfter(c, k - 1))
  }

  /** How often node `node` of `n` is chosen by `k` consecutive calls, counter starting at `c`. */
  function Picks(c: u64, k: nat, n: nat, node: nat): nat
    requires n > 0
  {
    if k == 0 then 0 else Picks(c, k - 1, n, node) + if CounterAfter(c, k - 1) % n == node then 1 else 0
  }

  lemma {:induction false} CounterWraps(c: u64, k: nat)
    ensures CounterAfter(c, k) == (c + k) % TWO64
  {
    if k > 0 {
      CounterWraps(c, k - 1);
      ModStep(c + k - 1, TWO64);
    }
  }

  predicate Balanced(c: u64, k: nat, n: nat)
    requires n > 0
  {
    forall node: nat :: node < n ==> k / n <= Picks(c, k, n, node) <= (k + n - 1) / n
  }

  /** The same count for a counter that never wraps. */
  function Hits(c: nat, k: nat, n: nat, node: nat): nat
    requires n > 0
  {
    if k == 0 then 0 else Hits(c, k - 1, n, node) + if (c + k - 1) % n == node then 1 else 0
  }

  lemma ModStep(x: nat, n: nat)
    requires n > 0
    ensures (x + 1) % n == if x % n == n - 1 then 0 else x % n + 1
  {
    var q, r := x / n, x % n;
    assert x == n * q + r;
    if r == n - 1 {
      assert x + 1 == n * (q + 1) + 0;
      DivModUnique(x + 1, n, q + 1, 0);
    } else {
      DivModUnique(x + 1, n, q, r + 1);
    }
  }

  lemma DivModUnique(x: nat, n: nat, q: nat, r: nat)
    requires n > 0 && x == n * q + r && r < n
    ensures x % n == r && x / n == q
  {
    var d, r' := x / n - q, x % n;
    assert n * d == r - r';
    if d >= 1 {
      AtLeast(n, d);
      assert false;
    } else if d <= -1 {
      AtLeast(n, -d);
      assert false;
    }
  }

  lemma AtLeast(n: nat, d: int)
    requires d >= 1
    ensures n * d >= n
  {
  }

  lemma NextQuotient(x: nat, n: nat)
    requires n > 0
    ensures (x + n) / n == x / n + 1
  {
    DivModUnique(x + n, n, x / n + 1, x % n);
  }

  lemma {:induction false} ModAhead(x: nat, d: nat, n: nat)
    requires n > 0 && d < n
    ensures (x + d) % n == if x % n + d < n then x % n + d else x % n + d - n
  {
    if d > 0 {
      ModAhead(x, d - 1, n);
      ModStep(x + d - 1, n);
    }
  }

  /** In at most one round each node is hit at most once, in a full round exactly once. */
  lemma {:induction false} OneRound(c: nat, k: nat, n: nat, node: nat)
    requires 0 < n && k <= n && node < n
    ensures var d := if node >= c % n then node - c % n else node - c % n + n;
            Hits(c, k, n, node) == if d < k then 1 else 0
  {
    if k > 0 {
      OneRound(c, k - 1, n, node);
      ModAhead(c, k - 1, n);
    }
  }

  lemma {:induction false} HitsSplit(c: nat, a: nat, b: nat, n: nat, node: nat)
    requires n > 0
    ensures Hits(c, a + b, n, node) == Hits(c, a, n, node) + Hits(c + a, b, n, node)
  {
    if b > 0 {
      HitsSplit(c, a, b - 1, n, node);
    }
  }

  lemma {:induction false} HitsBalanced(c: nat, k: nat, n: nat, node: nat)
    requires 0 < n && node < n
    ensures k / n <= Hits(c, k, n, node) <= (k + n - 1) / n
    decreases k
  {
    if k < n {
      OneRound(c, k, n, node);
      DivModUnique(k, n, 0, k);
      if k > 0 {
        DivModUnique(k + n - 1, n, 1, k - 1);
      } else {
        DivModUnique(n - 1, n, 0, n - 1);
      }
    } else {
      OneRound(c, n, n, node);
      HitsSplit(c, n, k - n, n, node);
      HitsBalanced(c + n, k - n, n, node);
      NextQuotient(k - n, n);
      NextQuotient(k - 1, n);
    }
  }

  /** The counter's wrap does not show in the node chosen. */
  predicate WrapUnseen(end: nat, n: nat)
    requires n > 0
  {
    end <= TWO64 || TWO64 % n == 0
  }

  lemma SameNode(x: nat, n: nat)
    requires n > 0 && WrapUnseen(x + 1, n)
    ensures x % TWO64 % n == x % n
  {
    if TWO64 % n == 0 {
      WrapKeepsResidue(x, n);
    }
  }

  lemma {:induction false} PicksAreHits(c: u64, k: nat, n: nat, node: nat)
    requires n > 0 && WrapUnseen(c + k, n)
    ensures Picks(c, k, n, node) == Hits(c, k, n, node)
  {
    if k > 0 {
      assert WrapUnseen(c + (k - 1), n);
      PicksAreHits(c, k - 1, n, node);
      CounterWraps(c, k - 1);
      SameNode(c + k - 1, n);
    }
  }

  lemma WrapKeepsResidue(x: nat, n: nat)
    requires n > 0 && TWO64 % n == 0
    ensures x % TWO64 % n == x % n
  {
    var m, q, r := TWO64 / n, x / TWO64, x % TWO64;
    assert TWO64 == n * m;
    assert r == n * (r / n) + r % n;
    assert x == n * (m * q + r / n) + r % n by {
      assert x == TWO64 * q + r;
      assert n * m * q == n * (m * q);
    }
    DivModUnique(x, n, m * q + r / n, r % n);
  }

  /** While the 64-bit counter does not wrap, k consecutive calls serve every node equally, to within one. */
  lemma {:induction false} RoundRobinBalanced(c: u64, k: nat, n: nat)
    requires n > 0 && c + k <= TWO64
    ensures Balanced(c, k, n)
  {
    forall node: nat | node < n
      ensures k / n <= Picks(c, k, n, node) <= (k + n - 1) / n
    {
      PicksAreHits(c, k, n, node);
      HitsBalanced(c, k, n, node);
    }
  }

  /** Two calls in the round after the wrap, one before it, land on the same node. */
  lemma {:induction false} PicksAcrossWrap(m: nat, n: nat)
    requires n > 0 && TWO64 % n != 0 && m <= TWO64 % n
    ensures Picks(TWO64 - 1, m + 1, n, TWO64 % n - 1) == if m == TWO64 % n then 2 else 1
    decreases m
  {
    var c, r := TWO64 - 1, TWO64 % n;
    CounterWraps(c, m);
    if m == 0 {
      ModStep(c, n);
      assert c % n == r - 1;
      assert Picks(c, 1, n, r - 1) == Picks(c, 0, n, r - 1) + 1;
    } else {
      PicksAcrossWrap(m - 1, n);
      ResidueSmall(n);
      assert (c + m) % TWO64 == m - 1;
      DivModUnique(m - 1, n, 0, m - 1);
    }
  }

  lemma ResidueSmall(n: nat)
    requires n > 0
    ensures TWO64 % n <= TWO64
  {
    assert TWO64 == n * (TWO64 / n) + TWO64 % n;
  }

  /** The wrap itself is harmless exactly when the number of nodes divides 2^64. */
  lemma {:induction false} AlwaysBalancedIff(n: nat)
    requires n > 0
    ensures (forall c: u64, k: nat :: Balanced(c, k, n)) <==> TWO64 % n == 0
  {
    var r := TWO64 % n;
    if r == 0 {
      forall c: u64, k: nat
        ensures Balanced(c, k, n)
      {
        forall node: nat | node < n
          ensures k / n <= Picks(c, k, n, node) <= (k + n - 1) / n
        {
          PicksAreHits(c, k, n, node);
          HitsBalanced(c, k, n, node);
        }
      }
    } else {
      PicksAcrossWrap(r, n);
      DivModUnique(r + n, n, 1, r);
      assert !Balanced(TWO64 - 1, r + 1, n);
    }
  }
}
