/**
 * Live mode as one system: the poller feeding the bounded queue, the block loop of `main`, one
 * goroutine per guest, and the ring buffer that GET /results may read at any moment.
 */
module Live {
  import opened Bytes
  import opened Store
  import opened Pool

  // ---- One guest run ----

  /** What `runner.Run` observes of a guest. */
  datatype Outcome = RunFailed(log: string, error: string) | Ran(valid: bool, log: string, durationMs: int)

  datatype FetchMeta = FetchMeta(node: string, txCount: int, gasUsed: u64)

  /** `runner.Run` and the fields `main` sets afterwards: both paths name the block and the guest. */
  function GuestResult(name: string, block: u64, meta: FetchMeta, o: Outcome): (r: Result)
    ensures r.block == block && r.guest == name
    ensures r.valid <==> o.Ran? && o.valid
    ensures r.error == (if o.RunFailed? then o.error else "") && r.log == o.log
    ensures r.durationMs == if o.Ran? then o.durationMs else 0
    ensures r.witnessFrom == meta.node && r.txCount == meta.txCount && r.gasUsed == meta.gasUsed
  {
    var ran := if o.Ran? then Result(block, name, "", o.valid, "", o.log, 0, 0, o.durationMs)
               else EMPTY_RESULT.(log := o.log);
    var r := ran.(witnessFrom := meta.node, txCount := meta.txCount, gasUsed := meta.gasUsed);
    if o.RunFailed? then r.(block := block, guest := name, error := o.error) else r
  }

  // ---- The system ----

  /** The block loop: at `select`, fetching, waiting for guests that have not added a result yet, stopped. */
  datatype Loop =
    | Idle
    | Fetching(block: u64)
    | Verifying(block: u64, meta: FetchMeta, pending: multiset<string>)
    | Stopped

  /** `history` is every result ever added; the buffer keeps the end of it. */
  datatype System = System(stream: Stream, loop: Loop, ring: Ring, history: seq<Result>)

  datatype Action =
    | Poll(num: u64)
    | Receive
    | FetchFailed
    | Fetched(meta: FetchMeta)
    | GuestAdds(name: string, outcome: Outcome)
    | Join
    | Shutdown

  function Start(): System
  {
    System(START, Idle, EmptyRing(), [])
  }

  predicate CanTake(s: System, a: Action)
  {
    match a
    case Poll(_) => true
    case Receive => s.loop.Idle? && s.stream.queue != []
    case FetchFailed => s.loop.Fetching?
    case Fetched(_) => s.loop.Fetching?
    case GuestAdds(name, _) => s.loop.Verifying? && name in s.loop.pending
    case Join => s.loop.Verifying? && s.loop.pending == multiset{}
    case Shutdown => s.loop.Idle?
  }

  /** `guests` are the configured guest names; a name may be configured more than once. */
  function Take(guests: multiset<string>, s: System, a: Action): System
    requires CanTake(s, a) && RingValid(s.ring)
  {
    match a
    case Poll(num) => s.(stream := OnPoll(s.stream, num))
    case Receive => s.(stream := OnReceive(s.stream), loop := Fetching(s.stream.queue[0]))
    case FetchFailed => s.(loop := Idle)
    case Fetched(meta) => s.(loop := Verifying(s.loop.block, meta, guests))
    case GuestAdds(name, o) =>
      var r := GuestResult(name, s.loop.block, s.loop.meta, o);
      s.(ring := RingAdd(s.ring, r), history := s.history + [r],
         loop := s.loop.(pending := s.loop.pending - multiset{name}))
    case Join => s.(loop := Idle)
    case Shutdown => s.(loop := Stopped)
  }

  predicate IsRun(guests: multiset<string>, s: System, actions: seq<Action>)
    requires RingValid(s.ring)
    decreases |actions|
  {
    actions == [] || (CanTake(s, actions[0]) && IsRun(guests, Take(guests, s, actions[0]), actions[1..]))
  }

  function Reached(guests: multiset<string>, s: System, actions: seq<Action>): (end: System)
    requires RingValid(s.ring) && IsRun(guests, s, actions)
    ensures RingValid(end.ring)
    decreases |actions|
  {
    if actions == [] then s else Reached(guests, Take(guests, s, actions[0]), actions[1..])
  }

  /** What GET /results returns in a state. */
  function Snapshot(s: System): seq<Result>
    requires RingValid(s.ring)
  {
    RingAll(s.ring)
  }

  /** The guests that reported on block `b`. */
  function Reporters(rs: seq<Result>, b: u64): multiset<string>
  {
    if rs == [] then multiset{}
    else Reporters(rs[..|rs| - 1], b) +
         if rs[|rs| - 1].block == b then multiset{rs[|rs| - 1].guest} else multiset{}
  }

  predicate Ordered(rs: seq<Result>)
  {
    forall i, j :: 0 <= i < j < |rs| ==> rs[i].block <= rs[j].block
  }

  // ---- The invariant ----

  predicate Active(loop: Loop, b: u64)
  {
    loop.Verifying? && loop.block == b
  }

  /** The block the loop works on is the head received last, and its pending guests are those that did not report. */
  predicate LoopOk(guests: multiset<string>, received: seq<u64>, loop: Loop, history: seq<Result>)
  {
    match loop
    case Fetching(b) =>
      && |received| > 0 && b == received[|received| - 1]
      && (forall i :: 0 <= i < |history| ==> history[i].block < b)
    case Verifying(b, _, pending) =>
      && |received| > 0 && b == received[|received| - 1]
      && Reporters(history, b) + pending == guests
    case _ => true
  }

  predicate Behind(received: seq<u64>, r: Result)
  {
    |received| > 0 && r.block <= received[|received| - 1]
  }

  /** Results come in block order, from blocks received; every guest reported on every block but the active one. */
  predicate LogInv(guests: multiset<string>, received: seq<u64>, loop: Loop, history: seq<Result>)
  {
    && Ordered(history)
    && (forall i :: 0 <= i < |history| ==> Behind(received, history[i]))
    && LoopOk(guests, received, loop, history)
    && (forall i :: 0 <= i < |history| && !Active(loop, history[i].block) ==>
          Reporters(history, history[i].block) == guests)
  }

  predicate LiveInv(guests: multiset<string>, s: System)
  {
    && StreamInv(s.stream)
    && Holds(s.ring, s.history)
    && LogInv(guests, s.stream.received, s.loop, s.history)
  }

  lemma {:induction false} NobodyReported(rs: seq<Result>, b: u64)
    requires forall i :: 0 <= i < |rs| ==> rs[i].block != b
    ensures Reporters(rs, b) == multiset{}
  {
    if rs != [] {
      NobodyReported(rs[..|rs| - 1], b);
    }
  }

  lemma {:induction false} LogReceive(guests: multiset<string>, received: seq<u64>, history: seq<Result>, b: u64)
    requires LogInv(guests, received, Idle, history)
    requires forall i :: 0 <= i < |received| ==> received[i] < b
    ensures LogInv(guests, received + [b], Fetching(b), history)
  {
    assert (received + [b])[|received|] == b;
  }

  lemma {:induction false} LogFetched(
    guests: multiset<string>, received: seq<u64>, history: seq<Result>, b: u64, meta: FetchMeta)
    requires LogInv(guests, received, Fetching(b), history)
    ensures LogInv(guests, received, Verifying(b, meta, guests), history)
  {
    NobodyReported(history, b);
  }

  lemma {:induction false} ReportersAppend(history: seq<Result>, r: Result, b: u64)
    ensures Reporters(history + [r], b) == Reporters(history, b) + if r.block == b then multiset{r.guest} else multiset{}
  {
    assert (history + [r])[..|history|] == history;
  }

  lemma MoveOne(reported: multiset<string>, pending: multiset<string>, name: string)
    requires name in pending
    ensures (reported + multiset{name}) + (pending - multiset{name}) == reported + pending
  {
  }

  lemma {:induction false} NewestReport(received: seq<u64>, history: seq<Result>, r: Result)
    requires Ordered(history) && (forall i :: 0 <= i < |history| ==> Behind(received, history[i]))
    requires |received| > 0 && r.block == received[|received| - 1]
    ensures Ordered(history + [r]) && forall i :: 0 <= i < |history + [r]| ==> Behind(received, (history + [r])[i])
  {
    var more := history + [r];
    forall i | 0 <= i < |more|
      ensures Behind(received, more[i])
    {
      assert i < |history| ==> more[i] == history[i];
    }
  }

  lemma {:induction false} LogGuest(
    guests: multiset<string>, received: seq<u64>, loop: Loop, history: seq<Result>, r: Result)
    requires loop.Verifying? && LogInv(guests, received, loop, history)
    requires r.block == loop.block && r.guest in loop.pending
    ensures LogInv(guests, received, loop.(pending := loop.pending - multiset{r.guest}), history + [r])
  {
    var more, loop' := history + [r], loop.(pending := loop.pending - multiset{r.guest});
    NewestReport(received, history, r);
    ReportersAppend(history, r, loop.block);
    MoveOne(Reporters(history, loop.block), loop.pending, r.guest);
    forall i | 0 <= i < |more| && !Active(loop', more[i].block)
      ensures Reporters(more, more[i].block) == guests
    {
      assert more[i] == history[i];
      ReportersAppend(history, r, history[i].block);
    }
  }

  lemma {:induction false} LogIdle(guests: multiset<string>, received: seq<u64>, loop: Loop, loop': Loop, history: seq<Result>)
    requires LogInv(guests, received, loop, history)
    requires loop.Verifying? ==> loop.pending == multiset{}
    requires loop'.Idle? || loop'.Stopped?
    ensures LogInv(guests, received, loop', history)
  {
    forall i | 0 <= i < |history|
      ensures Reporters(history, history[i].block) == guests
    {
      if !Active(loop, history[i].block) {
        assert Reporters(history, history[i].block) == guests;
      }
    }
  }

  lemma {:induction false} HeadsAreNew(s: Stream)
    requires StreamInv(s) && s.queue != []
    ensures forall i :: 0 <= i < |s.received| ==> s.received[i] < s.queue[0]
  {
    var heads, n := s.received + s.queue, |s.received|;
    assert heads[n] == s.queue[0];
    assert forall i :: 0 <= i < n ==> s.received[i] == heads[i] < heads[n];
  }

  lemma {:induction false} LiveStep(guests: multiset<string>, s: System, a: Action)
    requires LiveInv(guests, s) && CanTake(s, a)
    ensures LiveInv(guests, Take(guests, s, a))
  {
    var received := s.stream.received;
    match a
    case Poll(num) => PollInv(s.stream, num);
    case Receive =>
      ReceiveInv(s.stream);
      HeadsAreNew(s.stream);
      LogReceive(guests, received, s.history, s.stream.queue[0]);
    case Fetched(meta) => LogFetched(guests, received, s.history, s.loop.block, meta);
    case GuestAdds(name, o) =>
      var r := GuestResult(name, s.loop.block, s.loop.meta, o);
      AddHolds(s.ring, s.history, r);
      LogGuest(guests, received, s.loop, s.history, r);
    case FetchFailed => LogIdle(guests, received, s.loop, Idle, s.history);
    case Join => LogIdle(guests, received, s.loop, Idle, s.history);
    case Shutdown => LogIdle(guests, received, s.loop, Stopped, s.history);
  }

  lemma {:induction false} LiveAlways(guests: multiset<string>, s: System, actions: seq<Action>)
    requires LiveInv(guests, s) && IsRun(guests, s, actions)
    ensures LiveInv(guests, Reached(guests, s, actions))
    decreases |actions|
  {
    if actions != [] {
      LiveStep(guests, s, actions[0]);
      LiveAlways(guests, Take(guests, s, actions[0]), actions[1..]);
    }
  }

  lemma {:induction false} StartInv(guests: multiset<string>)
    ensures LiveInv(guests, Start())
  {
    RunInv([]);
    AfterHolds([]);
  }

  /** From the start of the program, the snapshot is the end of an orderly history. */
  lemma {:induction false} ReachedInv(guests: multiset<string>, actions: seq<Action>)
    requires IsRun(guests, Start(), actions)
    ensures var s := Reached(guests, Start(), actions);
            && LogInv(guests, s.stream.received, s.loop, s.history)
            && Snapshot(s) == Last(s.history, CAPACITY)
            && Increasing(s.stream.received)
  {
    StartInv(guests);
    LiveAlways(guests, Start(), actions);
    var s := Reached(guests, Start(), actions);
    HoldsIsWindow(s.ring, s.history);
    ReceivedIncrease(s.stream);
  }

  lemma {:induction false} ReceivedIncrease(s: Stream)
    requires StreamInv(s)
    ensures Increasing(s.received)
  {
    assert forall i :: 0 <= i < |s.received| ==> s.received[i] == (s.received + s.queue)[i];
  }

  // ---- What a reader of /results can rely on ----

  lemma {:induction false} ReportersSplit(x: seq<Result>, y: seq<Result>, b: u64)
    ensures Reporters(x + y, b) == Reporters(x, b) + Reporters(y, b)
  {
    if y == [] {
      assert x + y == x;
    } else {
      assert (x + y)[..|x + y| - 1] == x + y[..|y| - 1];
      ReportersSplit(x, y[..|y| - 1], b);
    }
  }

  predicate Appears(rs: seq<Result>, b: u64)
  {
    exists i :: 0 <= i < |rs| && rs[i].block == b
  }

  /** A block other than the first of a window lies wholly inside it. */
  lemma {:induction false} WindowKeepsBlock(before: seq<Result>, w: seq<Result>, b: u64)
    requires Ordered(before + w) && Appears(w, b)
    requires before == [] || b != w[0].block
    ensures Reporters(w, b) == Reporters(before + w, b)
  {
    var h, n := before + w, |before|;
    var i :| 0 <= i < |w| && w[i].block == b;
    assert h[n + i] == w[i] && h[n] == w[0];
    forall k | 0 <= k < n
      ensures before[k].block != b
    {
      assert h[k] == before[k];
    }
    NobodyReported(before, b);
    ReportersSplit(before, w, b);
  }

  /** A block the guests are done with, and that was not cut off at the old end of the buffer. */
  predicate Settled(loop: Loop, w: seq<Result>, b: u64)
  {
    Appears(w, b) && (|w| < CAPACITY || b != w[0].block) && !Active(loop, b)
  }

  lemma {:induction false} SettledIsComplete(
    guests: multiset<string>, received: seq<u64>, loop: Loop, before: seq<Result>, w: seq<Result>, b: u64)
    requires LogInv(guests, received, loop, before + w)
    requires Settled(loop, w, b) && (before != [] ==> |w| == CAPACITY)
    ensures Reporters(w, b) == guests
  {
    var history, n := before + w, |before|;
    WindowKeepsBlock(before, w, b);
    var i :| 0 <= i < |w| && w[i].block == b;
    assert history[n + i] == w[i];
    assert Reporters(history, history[n + i].block) == guests;
  }

  /** Only the newest block of a snapshot can still be in progress. */
  lemma {:induction false} ActiveIsNewest(
    guests: multiset<string>, received: seq<u64>, loop: Loop, before: seq<Result>, w: seq<Result>, b: u64)
    requires LogInv(guests, received, loop, before + w) && Active(loop, b) && Appears(w, b)
    ensures b == w[|w| - 1].block
  {
    var history := before + w;
    var i :| 0 <= i < |w| && w[i].block == b;
    assert history[|before| + i] == w[i] && history[|history| - 1] == w[|w| - 1];
    assert Behind(received, history[|history| - 1]);
    if i < |w| - 1 {
      assert history[|before| + i].block <= history[|history| - 1].block;
    }
  }

  /**
   * At every moment of every run, whatever the nodes answer, the fetches do and the guests
   * return, GET /results is ordered by block, and every block in it has exactly one result per
   * configured guest, except possibly the oldest of a full buffer, which may be cut off, and the
   * one being verified, which can only be the newest.
   */
  lemma {:induction false} ResultsAlwaysConsistent(guests: multiset<string>, actions: seq<Action>)
    requires IsRun(guests, Start(), actions)
    ensures var s := Reached(guests, Start(), actions);
            && Ordered(Snapshot(s))
            && (forall b: u64 :: Settled(s.loop, Snapshot(s), b) ==> Reporters(Snapshot(s), b) == guests)
            && (forall b: u64 :: Active(s.loop, b) && Appears(Snapshot(s), b) ==>
                  b == Snapshot(s)[|Snapshot(s)| - 1].block)
  {
    ReachedInv(guests, actions);
    var s := Reached(guests, Start(), actions);
    var w := Snapshot(s);
    var before := s.history[..|s.history| - |w|];
    assert s.history == before + w;
    forall b: u64 | Settled(s.loop, w, b)
      ensures Reporters(w, b) == guests
    {
      SettledIsComplete(guests, s.stream.received, s.loop, before, w, b);
    }
    forall b: u64 | Active(s.loop, b) && Appears(w, b)
      ensures b == w[|w| - 1].block
    {
      ActiveIsNewest(guests, s.stream.received, s.loop, before, w, b);
    }
  }

  /** No block ever has more results than there are guests, even one that is cut off or in progress. */
  lemma {:induction false} NeverTooMany(guests: multiset<string>, actions: seq<Action>, b: u64)
    requires IsRun(guests, Start(), actions)
    ensures Reporters(Snapshot(Reached(guests, Start(), actions)), b) <= guests
  {
    ReachedInv(guests, actions);
    var s := Reached(guests, Start(), actions);
    AtMostOnce(guests, s.stream.received, s.loop, s.history, b);
    WindowReports(s.history, CAPACITY, b);
  }

  lemma {:induction false} WindowReports(history: seq<Result>, n: nat, b: u64)
    ensures Reporters(Last(history, n), b) <= Reporters(history, b)
  {
    var w := Last(history, n);
    var before := history[..|history| - |w|];
    assert history == before + w;
    ReportersSplit(before, w, b);
  }

  lemma {:induction false} AtMostOnce(
    guests: multiset<string>, received: seq<u64>, loop: Loop, history: seq<Result>, b: u64)
    requires LogInv(guests, received, loop, history)
    ensures Reporters(history, b) <= guests
  {
    if i :| 0 <= i < |history| && history[i].block == b {
      if !Active(loop, b) {
        assert Reporters(history, history[i].block) == guests;
      }
    } else {
      NobodyReported(history, b);
    }
  }

  // ---- Every fetched block is reported ----

  /** The blocks whose fetch succeeded in the course of a run. */
  function BlocksFetched(guests: multiset<string>, s: System, actions: seq<Action>): seq<u64>
    requires RingValid(s.ring) && IsRun(guests, s, actions)
    decreases |actions|
  {
    if actions == [] then []
    else (if actions[0].Fetched? then [s.loop.block] else []) +
         BlocksFetched(guests, Take(guests, s, actions[0]), actions[1..])
  }

  predicate Handled(guests: multiset<string>, s: System, b: u64)
  {
    Active(s.loop, b) || Reporters(s.history, b) == guests
  }

  lemma {:induction false} HandledStep(guests: multiset<string>, s: System, a: Action, b: u64)
    requires LiveInv(guests, s) && CanTake(s, a) && Handled(guests, s, b)
    ensures Handled(guests, Take(guests, s, a), b)
  {
    if a.GuestAdds? {
      var n, h := |s.history|, Take(guests, s, a).history;
      assert h[..n] == s.history && h[n].block == s.loop.block;
    }
  }

  lemma {:induction false} StaysHandled(guests: multiset<string>, s: System, actions: seq<Action>, b: u64)
    requires LiveInv(guests, s) && IsRun(guests, s, actions) && Handled(guests, s, b)
    ensures Handled(guests, Reached(guests, s, actions), b)
    decreases |actions|
  {
    if actions != [] {
      HandledStep(guests, s, actions[0], b);
      LiveStep(guests, s, actions[0]);
      StaysHandled(guests, Take(guests, s, actions[0]), actions[1..], b);
    }
  }

  lemma {:induction false} StaysReceived(guests: multiset<string>, s: System, actions: seq<Action>, b: u64)
    requires RingValid(s.ring) && IsRun(guests, s, actions) && b in s.stream.received
    ensures b in Reached(guests, s, actions).stream.received
    decreases |actions|
  {
    if actions != [] {
      StaysReceived(guests, Take(guests, s, actions[0]), actions[1..], b);
    }
  }

  lemma {:induction false} FetchedIsHandled(guests: multiset<string>, s: System, actions: seq<Action>, b: u64)
    requires LiveInv(guests, s) && IsRun(guests, s, actions) && b in BlocksFetched(guests, s, actions)
    ensures Handled(guests, Reached(guests, s, actions), b) && b in Reached(guests, s, actions).stream.received
    decreases |actions|
  {
    var s', rest := Take(guests, s, actions[0]), actions[1..];
    LiveStep(guests, s, actions[0]);
    if actions[0].Fetched? && b == s.loop.block {
      assert b in s'.stream.received;
      StaysHandled(guests, s', rest, b);
      StaysReceived(guests, s', rest, b);
    } else {
      FetchedIsHandled(guests, s', rest, b);
    }
  }

  lemma {:induction false} AppearsStep(guests: multiset<string>, s: System, a: Action, b: u64)
    requires RingValid(s.ring) && CanTake(s, a)
    requires Appears(Take(guests, s, a).history, b) || Active(Take(guests, s, a).loop, b)
    ensures Appears(s.history, b) || Active(s.loop, b) || (a.Fetched? && b == s.loop.block)
  {
    var s' := Take(guests, s, a);
    if i :| 0 <= i < |s'.history| && s'.history[i].block == b {
      if i < |s.history| {
        assert s.history[i].block == b;
      }
    }
  }

  lemma {:induction false} ReportedWasFetched(guests: multiset<string>, s: System, actions: seq<Action>, b: u64)
    requires RingValid(s.ring) && IsRun(guests, s, actions) && Appears(Reached(guests, s, actions).history, b)
    ensures Appears(s.history, b) || Active(s.loop, b) || b in BlocksFetched(guests, s, actions)
    decreases |actions|
  {
    if actions != [] {
      var s', rest := Take(guests, s, actions[0]), actions[1..];
      ReportedWasFetched(guests, s', rest, b);
      if b !in BlocksFetched(guests, s', rest) {
        AppearsStep(guests, s, actions[0], b);
      }
    }
  }

  /** A block newer than the oldest in the window has all its results inside. */
  lemma {:induction false} WindowKeepsNewer(before: seq<Result>, w: seq<Result>, b: u64)
    requires Ordered(before + w) && (before == [] || (w != [] && w[0].block < b))
    ensures Reporters(w, b) == Reporters(before + w, b)
  {
    var h, n := before + w, |before|;
    forall k | 0 <= k < n
      ensures before[k].block != b
    {
      assert h[k] == before[k] && h[n] == w[0];
    }
    NobodyReported(before, b);
    ReportersSplit(before, w, b);
  }

  /** The buffer has not dropped any result on block `b`: it is not full, or starts at an older block. */
  predicate InWindow(w: seq<Result>, b: u64)
  {
    |w| < CAPACITY || w[0].block < b
  }

  lemma {:induction false} SnapshotShows(guests: multiset<string>, actions: seq<Action>, b: u64)
    requires IsRun(guests, Start(), actions)
    ensures var s := Reached(guests, Start(), actions);
            InWindow(Snapshot(s), b) ==> Reporters(Snapshot(s), b) == Reporters(s.history, b)
  {
    ReachedInv(guests, actions);
    var s := Reached(guests, Start(), actions);
    var w := Snapshot(s);
    var before := s.history[..|s.history| - |w|];
    assert s.history == before + w;
    if InWindow(w, b) {
      WindowKeepsNewer(before, w, b);
    }
  }

  /**
   * Nothing fetched goes unreported, nothing else is reported. In every run a block with results
   * is one whose fetch succeeded, and such a block is a head that was received and, unless it is
   * being verified, has exactly one result per configured guest; GET /results shows them all,
   * except what a full buffer has dropped at its old end.
   */
  lemma {:induction false} FetchedIsReported(guests: multiset<string>, actions: seq<Action>, b: u64)
    requires IsRun(guests, Start(), actions)
    ensures var s, fetched := Reached(guests, Start(), actions), BlocksFetched(guests, Start(), actions);
            && (Appears(s.history, b) ==> b in fetched)
            && (b in fetched ==> b in s.stream.received)
            && (b in fetched && !Active(s.loop, b) ==> Reporters(s.history, b) == guests)
            && (b in fetched && !Active(s.loop, b) && InWindow(Snapshot(s), b) ==> Reporters(Snapshot(s), b) == guests)
  {
    StartInv(guests);
    if Appears(Reached(guests, Start(), actions).history, b) {
      ReportedWasFetched(guests, Start(), actions, b);
    }
    if b in BlocksFetched(guests, Start(), actions) {
      FetchedIsHandled(guests, Start(), actions, b);
      SnapshotShows(guests, actions, b);
    }
  }
}
