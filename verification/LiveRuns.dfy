/**
 * Whole runs of the live system: what the heads and the results are in terms of what happened
 * alone, that the block loop always gets back to its `select`, and that it drains its queue.
 */
module LiveRuns {
  import opened Bytes
  import opened Store
  import opened Pool
  import opened Live

  // ---- The run as its actions tell it ----

  /** The polls and receives of a run. */
  function Events(actions: seq<Action>): seq<Event>
  {
    if actions == [] then []
    else Events(actions[..|actions| - 1]) +
         match actions[|actions| - 1]
         case Poll(num) => [Polled(num)]
         case Receive => [Received]
         case _ => []
  }

  /** The head received last. */
  function LastHead(actions: seq<Action>): u64
  {
    var received := Run(START, Events(actions)).received;
    if received == [] then 0 else received[|received| - 1]
  }

  /** What the last successful fetch said. */
  function LastMeta(actions: seq<Action>): FetchMeta
  {
    if actions == [] then FetchMeta("", 0, 0)
    else
      match actions[|actions| - 1]
      case Fetched(meta) => meta
      case _ => LastMeta(actions[..|actions| - 1])
  }

  /** The results: one per guest that reported, about the head received last, with what its fetch said. */
  function Reports(actions: seq<Action>): seq<Result>
  {
    if actions == [] then []
    else
      var past := actions[..|actions| - 1];
      Reports(past) +
      match actions[|actions| - 1]
      case GuestAdds(name, o) => [GuestResult(name, LastHead(past), LastMeta(past), o)]
      case _ => []
  }

  /** The loop is where the actions left it. */
  predicate LoopTracks(loop: Loop, actions: seq<Action>)
  {
    && (loop.Fetching? ==> loop.block == LastHead(actions))
    && (loop.Verifying? ==> loop.block == LastHead(actions) && loop.meta == LastMeta(actions))
    && (loop.Stopped? <==> Shutdown in actions)
  }

  predicate Tracks(s: System, actions: seq<Action>)
  {
    s.stream == Run(START, Events(actions)) && s.history == Reports(actions) && LoopTracks(s.loop, actions)
  }

  lemma {:induction false} StreamStep(guests: multiset<string>, s: System, past: seq<Action>, a: Action)
    requires RingValid(s.ring) && CanTake(s, a) && s.stream == Run(START, Events(past))
    ensures Take(guests, s, a).stream == Run(START, Events(past + [a]))
  {
    var more, es := past + [a], Events(past);
    assert more[..|past|] == past && more[|past|] == a;
    if a.Poll? || a.Receive? {
      var e := if a.Poll? then Polled(a.num) else Received;
      assert Events(more) == es + [e];
      assert (es + [e])[..|es|] == es;
    } else {
      assert Events(more) == es + [] == es;
    }
  }

  lemma {:induction false} ReportsStep(guests: multiset<string>, s: System, past: seq<Action>, a: Action)
    requires RingValid(s.ring) && CanTake(s, a) && Tracks(s, past)
    ensures Take(guests, s, a).history == Reports(past + [a])
  {
    var more := past + [a];
    assert more[..|past|] == past && more[|past|] == a;
    if !a.GuestAdds? {
      assert Reports(more) == Reports(past) + [];
    }
  }

  lemma {:induction false} LoopStep(guests: multiset<string>, s: System, past: seq<Action>, a: Action)
    requires RingValid(s.ring) && CanTake(s, a) && Tracks(s, past)
    ensures LoopTracks(Take(guests, s, a).loop, past + [a])
  {
    var more := past + [a];
    assert more[..|past|] == past && more[|past|] == a;
    assert Shutdown in more <==> Shutdown in past || a == Shutdown;
    StreamStep(guests, s, past, a);
  }

  lemma {:induction false} TracksStep(guests: multiset<string>, s: System, past: seq<Action>, a: Action)
    requires RingValid(s.ring) && CanTake(s, a) && Tracks(s, past)
    ensures Tracks(Take(guests, s, a), past + [a])
  {
    StreamStep(guests, s, past, a);
    ReportsStep(guests, s, past, a);
    LoopStep(guests, s, past, a);
  }

  lemma Chain(past: seq<Action>, actions: seq<Action>)
    requires actions != []
    ensures past + [actions[0]] + actions[1..] == past + actions
  {
  }

  lemma {:induction false} TracksAlways(guests: multiset<string>, s: System, past: seq<Action>, actions: seq<Action>)
    requires RingValid(s.ring) && IsRun(guests, s, actions) && Tracks(s, past)
    ensures Tracks(Reached(guests, s, actions), past + actions)
    decreases |actions|
  {
    if actions == [] {
      assert past + actions == past;
    } else {
      TracksStep(guests, s, past, actions[0]);
      TracksAlways(guests, Take(guests, s, actions[0]), past + [actions[0]], actions[1..]);
      Chain(past, actions);
    }
  }

  /**
   * The live system refines the pool and stores what happened: in every run its heads are those
   * of the pool alone under the same polls and receives, its results are the guests' reports on
   * the head received last with what the last fetch said, and the loop has stopped iff it was
   * told to.
   */
  lemma {:induction false} RunTellsAll(guests: multiset<string>, actions: seq<Action>)
    requires IsRun(guests, Start(), actions)
    ensures var s := Reached(guests, Start(), actions);
            && s.stream == Run(START, Events(actions))
            && s.history == Reports(actions)
            && Snapshot(s) == Last(Reports(actions), 1000)
            && (s.loop.Stopped? <==> Shutdown in actions)
  {
    TracksAlways(guests, Start(), [], actions);
    assert [] + actions == actions;
    ReachedInv(guests, actions);
  }

  /** Once stopped, the loop receives and reports nothing more. */
  lemma {:induction false} StoppedForGood(guests: multiset<string>, s: System, actions: seq<Action>)
    requires RingValid(s.ring) && IsRun(guests, s, actions) && s.loop.Stopped?
    ensures var t := Reached(guests, s, actions);
            t.loop.Stopped? && t.history == s.history && t.stream.received == s.stream.received
    decreases |actions|
  {
    if actions != [] {
      StoppedForGood(guests, Take(guests, s, actions[0]), actions[1..]);
    }
  }

  function Polls(nums: seq<u64>): (actions: seq<Action>)
    ensures |actions| == |nums|
  {
    seq(|nums|, i requires 0 <= i < |nums| => Poll(nums[i]))
  }

  /** The poller never waits for the block loop: any answers can come in at any moment, and only the stream hears of them. */
  lemma {:induction false} PollsNeverWait(guests: multiset<string>, s: System, nums: seq<u64>)
    requires RingValid(s.ring)
    ensures IsRun(guests, s, Polls(nums))
    ensures var t := Reached(guests, s, Polls(nums));
            t.loop == s.loop && t.history == s.history && t.ring == s.ring && t.stream.received == s.stream.received
    decreases |nums|
  {
    if nums != [] {
      assert Polls(nums)[1..] == Polls(nums[1..]);
      PollsNeverWait(guests, Take(guests, s, Poll(nums[0])), nums[1..]);
    }
  }

  // ---- The loop comes round ----

  /** The heads whose fetch succeeds. */
  function Fetchable(heads: seq<u64>, fetch: u64 -> Option<FetchMeta>): seq<u64>
  {
    if heads == [] then []
    else (if fetch(heads[0]).Some? then [heads[0]] else []) + Fetchable(heads[1..], fetch)
  }

  /** The heads the loop has still to fetch: the one it is at, and those waiting. */
  function Ahead(s: System): seq<u64>
  {
    (if s.loop.Fetching? then [s.loop.block] else []) + s.stream.queue
  }

  function LoopRank(loop: Loop): nat
  {
    match loop
    case Fetching(_) => 2
    case Verifying(_, _, _) => 1
    case _ => 0
  }

  function Pending(loop: Loop): nat
  {
    if loop.Verifying? then |loop.pending| else 0
  }

  /** Some work is done: a head taken, or the block at hand brought nearer to its join. */
  predicate Nearer(s: System, t: System)
  {
    || |t.stream.queue| < |s.stream.queue|
    || (t.stream == s.stream && LoopRank(t.loop) < LoopRank(s.loop))
    || (t.stream == s.stream && LoopRank(t.loop) == LoopRank(s.loop) && Pending(t.loop) < Pending(s.loop))
  }

  /** An action of the loop's own that fits the given fetches and outcomes, does some work and loses no head. */
  predicate GoodAction(
    guests: multiset<string>, s: System, fetch: u64 -> Option<FetchMeta>, outcome: string -> Outcome, a: Action)
    requires RingValid(s.ring)
  {
    && CanTake(s, a) && !a.Poll? && !a.Shutdown?
    && (a.GuestAdds? ==> a.outcome == outcome(a.name))
    && (a.Fetched? ==> fetch(s.loop.block) == Some(a.meta))
    && var t := Take(guests, s, a);
    && Nearer(s, t) && !t.loop.Stopped?
    && t.stream.received + t.stream.queue == s.stream.received + s.stream.queue
    && Fetchable(Ahead(s), fetch) == (if a.Fetched? then [s.loop.block] else []) + Fetchable(Ahead(t), fetch)
  }

  lemma {:induction false} NextFromIdle(
    guests: multiset<string>, s: System, fetch: u64 -> Option<FetchMeta>, outcome: string -> Outcome)
    requires RingValid(s.ring) && s.loop.Idle? && s.stream.queue != []
    ensures GoodAction(guests, s, fetch, outcome, Receive)
  {
    PopHead(s.stream.received, s.stream.queue);
    assert Ahead(s) == s.stream.queue == Ahead(Take(guests, s, Receive));
    assert [] + Fetchable(s.stream.queue, fetch) == Fetchable(s.stream.queue, fetch);
  }

  lemma PopHead(received: seq<u64>, queue: seq<u64>)
    requires queue != []
    ensures received + [queue[0]] + queue[1..] == received + queue
    ensures [queue[0]] + queue[1..] == queue && [] + queue == queue
  {
  }

  lemma {:induction false} NextFromFetching(
    guests: multiset<string>, s: System, fetch: u64 -> Option<FetchMeta>, outcome: string -> Outcome)
    requires RingValid(s.ring) && s.loop.Fetching?
    ensures var a := if fetch(s.loop.block).Some? then Fetched(fetch(s.loop.block).value) else FetchFailed;
            GoodAction(guests, s, fetch, outcome, a)
  {
    assert Ahead(s)[0] == s.loop.block && Ahead(s)[1..] == s.stream.queue;
    assert [] + s.stream.queue == s.stream.queue;
  }

  lemma {:induction false} NextFromVerifying(
    guests: multiset<string>, s: System, fetch: u64 -> Option<FetchMeta>, outcome: string -> Outcome) returns (a: Action)
    requires RingValid(s.ring) && s.loop.Verifying?
    ensures GoodAction(guests, s, fetch, outcome, a)
  {
    if s.loop.pending == multiset{} {
      a := Join;
    } else {
      var name :| name in s.loop.pending;
      a := GuestAdds(name, outcome(name));
      assert |s.loop.pending - multiset{name}| == |s.loop.pending| - 1;
    }
    assert Ahead(Take(guests, s, a)) == Ahead(s);
  }

  /** What the loop does next when fetches go as `fetch` says and guests return `outcome`. */
  lemma {:induction false} NextAction(
    guests: multiset<string>, s: System, fetch: u64 -> Option<FetchMeta>, outcome: string -> Outcome) returns (a: Action)
    requires RingValid(s.ring) && !s.loop.Stopped? && !(s.loop.Idle? && s.stream.queue == [])
    ensures GoodAction(guests, s, fetch, outcome, a)
  {
    match s.loop
    case Idle =>
      a := Receive;
      NextFromIdle(guests, s, fetch, outcome);
    case Fetching(b) =>
      a := if fetch(b).Some? then Fetched(fetch(b).value) else FetchFailed;
      NextFromFetching(guests, s, fetch, outcome);
    case Verifying(_, _, _) =>
      a := NextFromVerifying(guests, s, fetch, outcome);
  }

  /**
   * The loop never gets stuck and loses no waiting head. From every state that is not stopped, for
   * any way the fetches may go and any outcomes of the guests, some continuation without a poll or
   * a shutdown empties the queue and ends at the `select`: every waiting head is received, in
   * order, and exactly those whose fetch succeeds are verified.
   */
  lemma {:induction false} CanDrain(
    guests: multiset<string>, s: System, fetch: u64 -> Option<FetchMeta>, outcome: string -> Outcome)
    returns (actions: seq<Action>)
    requires RingValid(s.ring) && !s.loop.Stopped?
    ensures IsRun(guests, s, actions)
    ensures forall i :: 0 <= i < |actions| ==> !actions[i].Poll? && !actions[i].Shutdown?
    ensures forall i :: 0 <= i < |actions| && actions[i].GuestAdds? ==> actions[i].outcome == outcome(actions[i].name)
    ensures var t := Reached(guests, s, actions);
            && t.loop.Idle? && t.stream.queue == []
            && t.stream.received == s.stream.received + s.stream.queue
    ensures BlocksFetched(guests, s, actions) == Fetchable(Ahead(s), fetch)
    decreases |s.stream.queue|, LoopRank(s.loop), Pending(s.loop)
  {
    if s.loop.Idle? && s.stream.queue == [] {
      actions := [];
      assert s.stream.received + [] == s.stream.received;
    } else {
      var a := NextAction(guests, s, fetch, outcome);
      var t := Take(guests, s, a);
      var rest := CanDrain(guests, t, fetch, outcome);
      actions := [a] + rest;
      assert actions[1..] == rest;
    }
  }

  /**
   * In every run without a shutdown the loop is not stopped, and whatever happened so far, if the
   * remaining fetches succeed, the run has a continuation after which every head that was waiting
   * has been received, fetched and reported on by every guest.
   */
  lemma {:induction false} EveryHeadIsServed(
    guests: multiset<string>, actions: seq<Action>, meta: FetchMeta, outcome: string -> Outcome)
    returns (rest: seq<Action>)
    requires IsRun(guests, Start(), actions) && Shutdown !in actions
    ensures var s := Reached(guests, Start(), actions);
            && !s.loop.Stopped?
            && IsRun(guests, s, rest)
            && var t := Reached(guests, s, rest);
            && t.loop.Idle? && t.stream.queue == [] && t.stream.received == s.stream.received + s.stream.queue
            && forall b: u64 :: b in s.stream.queue ==> Reporters(t.history, b) == guests
  {
    var s := Reached(guests, Start(), actions);
    RunTellsAll(guests, actions);
    StartInv(guests);
    LiveAlways(guests, Start(), actions);
    var fetch: u64 -> Option<FetchMeta> := _ => Some(meta);
    rest := CanDrain(guests, s, fetch, outcome);
    forall b: u64 | b in s.stream.queue
      ensures Reporters(Reached(guests, s, rest).history, b) == guests
    {
      assert b in Ahead(s);
      AllFetchable(Ahead(s), fetch);
      FetchedIsHandled(guests, s, rest, b);
    }
  }

  lemma {:induction false} AllFetchable(heads: seq<u64>, fetch: u64 -> Option<FetchMeta>)
    requires forall b :: fetch(b).Some?
    ensures Fetchable(heads, fetch) == heads
  {
    if heads != [] {
      AllFetchable(heads[1..], fetch);
    }
  }
}
