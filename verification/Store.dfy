/** `store.RingBuffer`: the last 1000 verification results, read by GET /results. */
module Store {
  import opened Bytes

  datatype Result = Result(
    block: u64, guest: string, witnessFrom: string, valid: bool, error: string, log: string,
    txCount: int, gasUsed: u64, durationMs: int)

  const EMPTY_RESULT := Result(0, "", "", false, "", "", 0, 0, 0)

  const CAPACITY: nat := 1000

  /** The fields of the buffer. */
  datatype Ring = Ring(items: seq<Result>, head: nat, count: nat)

  predicate RingValid(r: Ring)
  {
    |r.items| == CAPACITY && r.head < CAPACITY && r.count <= CAPACITY
  }

  function EmptyRing(): (r: Ring)
    ensures RingValid(r)
  {
    Ring(seq(CAPACITY, _ => EMPTY_RESULT), 0, 0)
  }

  function RingAdd(r: Ring, x: Result): (r': Ring)
    requires RingValid(r)
    ensures RingValid(r')
  {
    Ring(r.items[r.head := x], (r.head + 1) % CAPACITY, if r.count < CAPACITY then r.count + 1 else r.count)
  }

  function Slot(r: Ring, i: nat): (idx: nat)
    requires RingValid(r) && i < r.count
    ensures idx < CAPACITY
  {
    (r.head - r.count + i + CAPACITY) % CAPACITY
  }

  function RingAll(r: Ring): (out: seq<Result>)
    requires RingValid(r)
    ensures |out| == r.count
  {
    seq(r.count, i requires 0 <= i < r.count => r.items[Slot(r, i)])
  }

  class RingBuffer {
    var items: array<Result>
    var head: nat
    var count: nat

    ghost predicate Valid()
      reads this
    {
      items.Length == CAPACITY && head < CAPACITY && count <= CAPACITY
    }

    function View(): (r: Ring)
      requires Valid()
      reads this, items
      ensures RingValid(r)
    {
      Ring(items[..], head, count)
    }

    constructor ()
      ensures Valid() && fresh(items) && View() == EmptyRing()
    {
      items := new Result[CAPACITY](_ => EMPTY_RESULT);
      head, count := 0, 0;
      new;
      assert items[..] == EmptyRing().items;
    }

    /** `Add`: overwrite the slot at `head`, advance it modulo the capacity. */
    method Add(res: Result)
      requires Valid()
      modifies this`head, this`count, items
      ensures Valid() && items == old(items)
      ensures View() == RingAdd(old(View()), res)
    {
      items[head] := res;
      head := (head + 1) % CAPACITY;
      if count < CAPACITY {
        count := count + 1;
      }
    }

    /** `All`: copies the slots out, oldest first. */
    method All() returns (r: seq<Result>)
      requires Valid()
      ensures r == RingAll(View())
    {
      var out := new Result[count](_ => EMPTY_RESULT);
      for i := 0 to count
        invariant forall k :: 0 <= k < i ==> out[k] == RingAll(View())[k]
      {
        var idx := (head - count + i + CAPACITY) % CAPACITY;
        out[i] := items[idx];
      }
      r := out[..];
    }
  }

  // ---- What the buffer means: a window on everything ever added ----

  function Last(s: seq<Result>, n: nat): (r: seq<Result>)
    ensures |r| == if |s| <= n then |s| else n
  {
    if |s| <= n then s else s[|s| - n..]
  }

  /** The buffer after the given calls of `Add`, from an empty one. */
  function RingAfter(added: seq<Result>): (r: Ring)
    ensures RingValid(r)
  {
    if added == [] then EmptyRing() else RingAdd(RingAfter(added[..|added| - 1]), added[|added| - 1])
  }

  /** Entry `k` of the history sits in slot `k` modulo the capacity, as long as it is retained. */
  predicate Holds(r: Ring, added: seq<Result>)
  {
    && RingValid(r)
    && r.count == (if |added| <= CAPACITY then |added| else CAPACITY)
    && r.head == |added| % CAPACITY
    && forall k :: |added| - r.count <= k < |added| ==> r.items[k % CAPACITY] == added[k]
  }

  lemma {:induction false} AddHolds(r: Ring, added: seq<Result>, x: Result)
    requires Holds(r, added)
    ensures Holds(RingAdd(r, x), added + [x])
  {
    var r', added' := RingAdd(r, x), added + [x];
    forall k | |added'| - r'.count <= k < |added'|
      ensures r'.items[k % CAPACITY] == added'[k]
    {
      if k < |added| {
        assert k % CAPACITY != r.head;
        assert added'[k] == added[k];
      }
    }
  }

  lemma SlotOfIndex(n: nat, count: nat, i: nat)
    requires count <= n && count <= CAPACITY && i < count
    ensures (n % CAPACITY - count + i + CAPACITY) % CAPACITY == (n - count + i) % CAPACITY
  {
    var q, h := n / CAPACITY, n % CAPACITY;
    var d := h - count + i;
    assert n - count + i == CAPACITY * q + d;
    if d >= 0 {
      assert (d + CAPACITY) % CAPACITY == d && (CAPACITY * q + d) % CAPACITY == d;
    } else {
      assert CAPACITY * q + d == CAPACITY * (q - 1) + (d + CAPACITY);
    }
  }

  lemma {:induction false} HoldsIsWindow(r: Ring, added: seq<Result>)
    requires Holds(r, added)
    ensures RingAll(r) == Last(added, CAPACITY)
  {
    forall i | 0 <= i < r.count
      ensures RingAll(r)[i] == Last(added, CAPACITY)[i]
    {
      SlotOfIndex(|added|, r.count, i);
      assert r.items[(|added| - r.count + i) % CAPACITY] == added[|added| - r.count + i];
    }
  }

  lemma {:induction false} AfterHolds(added: seq<Result>)
    ensures Holds(RingAfter(added), added)
  {
    if added != [] {
      var front := added[..|added| - 1];
      AfterHolds(front);
      AddHolds(RingAfter(front), front, added[|added| - 1]);
      assert front + [added[|added| - 1]] == added;
    }
  }

  /** After any calls of `Add`, `All` returns the last 1000 results, oldest first. */
  lemma {:induction false} AllIsLastThousand(added: seq<Result>)
    ensures RingAll(RingAfter(added)) == Last(added, 1000)
  {
    AfterHolds(added);
    HoldsIsWindow(RingAfter(added), added);
  }
}
