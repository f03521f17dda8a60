/**
 * `runAll` as a transition system: the main goroutine and one worker per file interleave at every
 * access to shared state (the semaphore, the wait group, the two progress counters, the result
 * slots). A step names who moves; the elapsed time of a unit is the only other free choice.
 */
module Runner {
  import opened Bytes
  import opened Verdicts

  /** A discovered file, by what `expand` returns for it: None is its error. */
  datatype Job = Job(expansion: Option<seq<Unit>>)

  datatype Config = Config(jobs: seq<Job>, target: string, parallelism: nat)

  /** Where the worker of a file is. */
  datatype Phase =
    | Queued
    | Expanding
    | Running(out: seq<BlockResult>)
    | Counted(out: seq<BlockResult>, res: BlockResult, n: int)  // between done.Add and total.Load
    | Filed                                                     // result stored, deferred calls left
    | Released
    | Finished

  /** Where `runAll` itself is: before `wg.Add`, before `sem <-`, at `wg.Wait`, returned. */
  datatype MainPc = Adding | Acquiring | Waiting | Returned(results: seq<BlockResult>)

  datatype State = State(
    pc: MainPc, next: nat, phases: seq<Phase>, perFile: seq<seq<BlockResult>>,
    done: int, total: int, slots: int, wg: int, printed: seq<(int, int)>)

  datatype Step =
    | Add | Acquire | Wait
    | Expand(i: nat) | Count(i: nat, elapsed: nat) | Print(i: nat) | Store(i: nat) | Release(i: nat) | Finish(i: nat)

  function Concat(rss: seq<seq<BlockResult>>): seq<BlockResult>
  {
    if rss == [] then [] else rss[0] + Concat(rss[1..])
  }

  function Init(c: Config): State
  {
    var n := |c.jobs|;
    State(if n == 0 then Waiting else Adding, 0, seq(n, _ => Queued), seq(n, _ => []), 0, n, 0, 0, [])
  }

  predicate Shaped(c: Config, s: State)
  {
    |s.phases| == |s.perFile| == |c.jobs| && s.next <= |c.jobs|
  }

  predicate Enabled(c: Config, s: State, step: Step)
    requires Shaped(c, s)
  {
    match step
    case Add => s.pc.Adding? && s.next < |c.jobs|
    case Acquire => s.pc.Acquiring? && s.next < |c.jobs| && s.slots < c.parallelism
    case Wait => s.pc.Waiting? && s.wg == 0
    case Expand(i) => i < |c.jobs| && s.phases[i].Expanding?
    case Count(i, _) => i < |c.jobs| && s.phases[i].Running? && c.jobs[i].expansion.Some?
                        && |s.phases[i].out| < |c.jobs[i].expansion.value|
    case Print(i) => i < |c.jobs| && s.phases[i].Counted?
    case Store(i) => i < |c.jobs| && s.phases[i].Running? && c.jobs[i].expansion.Some?
                     && |s.phases[i].out| == |c.jobs[i].expansion.value|
    case Release(i) => i < |c.jobs| && s.phases[i].Filed?
    case Finish(i) => i < |c.jobs| && s.phases[i].Released?
  }

  function Apply(c: Config, s: State, step: Step): State
    requires Shaped(c, s) && Enabled(c, s, step)
  {
    match step
    case Add => s.(wg := s.wg + 1, pc := Acquiring)
    case Acquire =>
      s.(slots := s.slots + 1, phases := s.phases[s.next := Expanding], next := s.next + 1,
         pc := if s.next + 1 < |c.jobs| then Adding else Waiting)
    case Wait => s.(pc := Returned(Concat(s.perFile)))
    case Expand(i) =>
      if c.jobs[i].expansion.None? then s.(done := s.done + 1, phases := s.phases[i := Filed])
      else s.(total := s.total + |c.jobs[i].expansion.value| - 1, phases := s.phases[i := Running([])])
    case Count(i, elapsed) =>
      var out := s.phases[i].out;
      var res := RunUnit(c.jobs[i].expansion.value[|out|], c.target, elapsed);
      s.(done := s.done + 1, phases := s.phases[i := Counted(out, res, s.done + 1)])
    case Print(i) =>
      var p := s.phases[i];
      s.(printed := s.printed + [(p.n, s.total)], phases := s.phases[i := Running(p.out + [p.res])])
    case Store(i) => s.(perFile := s.perFile[i := s.phases[i].out], phases := s.phases[i := Filed])
    case Release(i) => s.(slots := s.slots - 1, phases := s.phases[i := Released])
    case Finish(i) => s.(wg := s.wg - 1, phases := s.phases[i := Finished])
  }

  /** A schedule: the steps taken from the start, in order. */
  predicate Allowed(c: Config, s: State, steps: seq<Step>)
    requires Shaped(c, s)
    decreases |steps|
  {
    steps == [] ||
    (Enabled(c, s, steps[0]) && Shaped(c, Apply(c, s, steps[0])) && Allowed(c, Apply(c, s, steps[0]), steps[1..]))
  }

  function After(c: Config, s: State, steps: seq<Step>): (end: State)
    requires Shaped(c, s) && Allowed(c, s, steps)
    ensures Shaped(c, end)
    decreases |steps|
  {
    if steps == [] then s else After(c, Apply(c, s, steps[0]), steps[1..])
  }

  // ---- What a run has to produce, without any notion of schedule ----

  function Timeless(rs: seq<BlockResult>): (e: seq<BlockResult>)
    ensures |e| == |rs|
  {
    seq(|rs|, i requires 0 <= i < |rs| => rs[i].(elapsed := 0))
  }

  function UnitResults(us: seq<Unit>, target: string): (rs: seq<BlockResult>)
    ensures |rs| == |us|
  {
    seq(|us|, i requires 0 <= i < |us| => RunUnit(us[i], target, 0))
  }

  function FileResults(j: Job, target: string): seq<BlockResult>
  {
    if j.expansion.None? then [] else UnitResults(j.expansion.value, target)
  }

  /** All files one after the other, in discovery order; a failed expansion contributes nothing. */
  function Sequential(jobs: seq<Job>, target: string): seq<BlockResult>
  {
    if jobs == [] then [] else FileResults(jobs[0], target) + Sequential(jobs[1..], target)
  }

  // ---- Sums over the workers ----

  datatype Gauge = Slots | Open | Done | Total | Work

  function UnitCount(j: Job): nat
  {
    if j.expansion.None? then 0 else |j.expansion.value|
  }

  predicate HoldsSlot(p: Phase)
  {
    p.Expanding? || p.Running? || p.Counted? || p.Filed?
  }

  /** What one worker holds of a shared counter; `Work` is the number of steps it still has to take. */
  function Weight(g: Gauge, j: Job, p: Phase): int
  {
    var n := UnitCount(j);
    match g
    case Slots => if HoldsSlot(p) then 1 else 0
    case Open => if p.Queued? || p.Finished? then 0 else 1
    case Done => (match p
                  case Queued => 0
                  case Expanding => 0
                  case Running(out) => |out|
                  case Counted(out, _, _) => |out| + 1
                  case _ => if j.expansion.None? then 1 else n)
    case Total => if p.Queued? || p.Expanding? || j.expansion.None? then 1 else n
    case Work => (match p
                  case Queued => 2 * n + 4
                  case Expanding => 2 * n + 4
                  case Running(out) => 2 * (n - |out|) + 3
                  case Counted(out, _, _) => 2 * (n - |out|) + 2
                  case Filed => 2
                  case Released => 1
                  case Finished => 0)
  }

  function Sum(g: Gauge, jobs: seq<Job>, ps: seq<Phase>): int
    requires |jobs| == |ps|
  {
    if jobs == [] then 0 else Weight(g, jobs[0], ps[0]) + Sum(g, jobs[1..], ps[1..])
  }

  lemma {:induction false} SumPut(g: Gauge, jobs: seq<Job>, ps: seq<Phase>, i: nat, p: Phase)
    requires |jobs| == |ps| && i < |ps|
    ensures Sum(g, jobs, ps[i := p]) == Sum(g, jobs, ps) - Weight(g, jobs[i], ps[i]) + Weight(g, jobs[i], p)
  {
    if i == 0 {
      assert ps[0 := p][1..] == ps[1..];
    } else {
      SumPut(g, jobs[1..], ps[1..], i - 1, p);
      assert ps[i := p][1..] == ps[1..][i - 1 := p];
    }
  }

  lemma {:induction false} SumQueued(g: Gauge, jobs: seq<Job>, ps: seq<Phase>)
    requires |jobs| == |ps| && forall i :: 0 <= i < |ps| ==> ps[i] == Queued
    requires g != Work
    ensures Sum(g, jobs, ps) == if g == Total then |jobs| else 0
  {
    if jobs != [] {
      SumQueued(g, jobs[1..], ps[1..]);
    }
  }

  lemma {:induction false} SumOrder(g: Gauge, h: Gauge, jobs: seq<Job>, ps: seq<Phase>)
    requires |jobs| == |ps|
    requires forall i :: 0 <= i < |ps| ==> Weight(g, jobs[i], ps[i]) <= Weight(h, jobs[i], ps[i])
    ensures Sum(g, jobs, ps) <= Sum(h, jobs, ps)
  {
    if jobs != [] {
      SumOrder(g, h, jobs[1..], ps[1..]);
    }
  }

  lemma {:induction false} SumPositive(g: Gauge, jobs: seq<Job>, ps: seq<Phase>)
    requires |jobs| == |ps| && (forall i :: 0 <= i < |ps| ==> Weight(g, jobs[i], ps[i]) >= 0)
    ensures Sum(g, jobs, ps) >= 0
    ensures Sum(g, jobs, ps) > 0 <==> exists i :: 0 <= i < |ps| && Weight(g, jobs[i], ps[i]) > 0
  {
    if jobs != [] {
      SumPositive(g, jobs[1..], ps[1..]);
      if Sum(g, jobs[1..], ps[1..]) > 0 {
        var i :| 0 <= i < |ps[1..]| && Weight(g, jobs[1..][i], ps[1..][i]) > 0;
        assert Weight(g, jobs[i + 1], ps[i + 1]) > 0;
      }
      if i :| 0 <= i < |ps| && Weight(g, jobs[i], ps[i]) > 0 {
        if i > 0 {
          assert Weight(g, jobs[1..][i - 1], ps[1..][i - 1]) > 0;
        }
      }
    }
  }

  // ---- The invariant ----

  /** One worker: what it has computed so far is the beginning of what the file has to produce. */
  predicate WorkerOk(c: Config, j: Job, p: Phase, stored: seq<BlockResult>, done: int)
  {
    match p
    case Queued => stored == []
    case Expanding => stored == []
    case Running(out) =>
      stored == [] && j.expansion.Some? && |out| <= |j.expansion.value|
      && Timeless(out) == UnitResults(j.expansion.value[..|out|], c.target)
    case Counted(out, res, n) =>
      stored == [] && j.expansion.Some? && |out| < |j.expansion.value| && n <= done
      && Timeless(out + [res]) == UnitResults(j.expansion.value[..|out| + 1], c.target)
    case _ => Timeless(stored) == FileResults(j, c.target)
  }

  predicate WorkersOk(c: Config, s: State)
    requires Shaped(c, s)
  {
    forall i :: 0 <= i < |c.jobs| ==> WorkerOk(c, c.jobs[i], s.phases[i], s.perFile[i], s.done)
  }

  predicate CountersOk(c: Config, s: State)
    requires Shaped(c, s)
  {
    && s.done == Sum(Done, c.jobs, s.phases)
    && s.total == Sum(Total, c.jobs, s.phases)
    && s.slots == Sum(Slots, c.jobs, s.phases)
    && s.wg == Sum(Open, c.jobs, s.phases) + (if s.pc.Acquiring? then 1 else 0)
    && s.slots <= c.parallelism
  }

  predicate ControlOk(c: Config, s: State)
    requires Shaped(c, s)
  {
    && (s.pc.Adding? || s.pc.Acquiring? <==> s.next < |c.jobs|)
    && (forall i :: 0 <= i < |c.jobs| ==> (s.phases[i].Queued? <==> s.next <= i))
    && (s.pc.Returned? ==> s.wg == 0 && Timeless(s.pc.results) == Sequential(c.jobs, c.target))
  }

  predicate PrintedOk(s: State)
  {
    forall i :: 0 <= i < |s.printed| ==> s.printed[i].0 <= s.printed[i].1
  }

  predicate Inv(c: Config, s: State)
  {
    Shaped(c, s) && WorkersOk(c, s) && CountersOk(c, s) && ControlOk(c, s) && PrintedOk(s)
  }

  lemma {:induction false} InitInv(c: Config)
    ensures Inv(c, Init(c))
  {
    var ps := Init(c).phases;
    SumQueued(Done, c.jobs, ps);
    SumQueued(Total, c.jobs, ps);
    SumQueued(Slots, c.jobs, ps);
    SumQueued(Open, c.jobs, ps);
  }

  lemma {:induction false} DoneWithinTotal(c: Config, s: State)
    requires Shaped(c, s) && WorkersOk(c, s)
    ensures Sum(Done, c.jobs, s.phases) <= Sum(Total, c.jobs, s.phases)
  {
    forall i | 0 <= i < |c.jobs|
      ensures Weight(Done, c.jobs[i], s.phases[i]) <= Weight(Total, c.jobs[i], s.phases[i])
    {
      assert WorkerOk(c, c.jobs[i], s.phases[i], s.perFile[i], s.done);
    }
    SumOrder(Done, Total, c.jobs, s.phases);
  }

  lemma {:induction false} OneMoreResult(out: seq<BlockResult>, us: seq<Unit>, target: string, elapsed: nat)
    requires |out| < |us| && Timeless(out) == UnitResults(us[..|out|], target)
    ensures Timeless(out + [RunUnit(us[|out|], target, elapsed)]) == UnitResults(us[..|out| + 1], target)
  {
    var res := RunUnit(us[|out|], target, elapsed);
    assert res.(elapsed := 0) == RunUnit(us[|out|], target, 0);
    assert Timeless(out + [res]) == Timeless(out) + [res.(elapsed := 0)];
    assert UnitResults(us[..|out| + 1], target) == UnitResults(us[..|out|], target) + [RunUnit(us[|out|], target, 0)];
  }

  lemma TimelessConcat(a: seq<BlockResult>, b: seq<BlockResult>)
    ensures Timeless(a + b) == Timeless(a) + Timeless(b)
  {
  }

  lemma {:induction false} ConcatIsSequential(jobs: seq<Job>, target: string, rss: seq<seq<BlockResult>>)
    requires |jobs| == |rss| && forall i :: 0 <= i < |jobs| ==> Timeless(rss[i]) == FileResults(jobs[i], target)
    ensures Timeless(Concat(rss)) == Sequential(jobs, target)
  {
    if jobs != [] {
      var rest := Concat(rss[1..]);
      ConcatIsSequential(jobs[1..], target, rss[1..]);
      TimelessConcat(rss[0], rest);
      assert Timeless(rss[0]) == FileResults(jobs[0], target);
    }
  }

  /** When `wg.Wait` returns, every worker has finished. */
  lemma {:induction false} AllFinished(c: Config, s: State)
    requires Inv(c, s) && s.next == |c.jobs| && s.wg == 0
    ensures forall i :: 0 <= i < |c.jobs| ==> s.phases[i] == Finished
  {
    SumPositive(Open, c.jobs, s.phases);
    forall i | 0 <= i < |c.jobs|
      ensures s.phases[i] == Finished
    {
      assert Weight(Open, c.jobs[i], s.phases[i]) <= 0;
    }
  }

  lemma {:induction false} MainStep(c: Config, s: State, step: Step)
    requires Inv(c, s) && (step.Add? || step.Acquire? || step.Wait?) && Enabled(c, s, step)
    ensures Inv(c, Apply(c, s, step))
  {
    match step
    case Add =>
    case Acquire =>
      SumPut(Done, c.jobs, s.phases, s.next, Expanding);
      SumPut(Total, c.jobs, s.phases, s.next, Expanding);
      SumPut(Slots, c.jobs, s.phases, s.next, Expanding);
      SumPut(Open, c.jobs, s.phases, s.next, Expanding);
    case Wait =>
      AllFinished(c, s);
      forall i | 0 <= i < |c.jobs|
        ensures Timeless(s.perFile[i]) == FileResults(c.jobs[i], c.target)
      {
        assert WorkerOk(c, c.jobs[i], s.phases[i], s.perFile[i], s.done);
      }
      ConcatIsSequential(c.jobs, c.target, s.perFile);
  }

  /** A worker that moves keeps the others, and the main goroutine, where they were. */
  lemma {:induction false} Moved(c: Config, s: State, s': State, i: nat)
    requires Inv(c, s) && i < |c.jobs| && !s.pc.Returned?
    requires |s'.phases| == |s'.perFile| == |c.jobs| && s'.next == s.next && s'.pc == s.pc && s'.done >= s.done
    requires s'.phases == s.phases[i := s'.phases[i]] && s'.perFile == s.perFile[i := s'.perFile[i]]
    requires !s.phases[i].Queued? && !s'.phases[i].Queued?
    requires WorkerOk(c, c.jobs[i], s'.phases[i], s'.perFile[i], s'.done)
    ensures WorkersOk(c, s') && ControlOk(c, s')
  {
    forall k | 0 <= k < |c.jobs|
      ensures WorkerOk(c, c.jobs[k], s'.phases[k], s'.perFile[k], s'.done)
    {
      assert WorkerOk(c, c.jobs[k], s.phases[k], s.perFile[k], s.done);
    }
  }

  lemma {:induction false} NotReturned(c: Config, s: State, i: nat)
    requires Inv(c, s) && i < |c.jobs| && s.phases[i] != Finished
    ensures !s.pc.Returned?
  {
    if s.pc.Returned? {
      AllFinished(c, s);
    }
  }

  /** The moved worker still computes a beginning of its file's results. */
  lemma {:induction false} MovedWorkerOk(c: Config, s: State, step: Step)
    requires Inv(c, s) && !(step.Add? || step.Acquire? || step.Wait?) && Enabled(c, s, step)
    ensures var s' := Apply(c, s, step);
            WorkerOk(c, c.jobs[step.i], s'.phases[step.i], s'.perFile[step.i], s'.done)
  {
    var i := step.i;
    assert WorkerOk(c, c.jobs[i], s.phases[i], s.perFile[i], s.done);
    if step.Count? {
      OneMoreResult(s.phases[i].out, c.jobs[i].expansion.value, c.target, step.elapsed);
    } else if step.Store? {
      assert c.jobs[i].expansion.value[..|s.phases[i].out|] == c.jobs[i].expansion.value;
    }
  }

  lemma {:induction false} WorkerStep(c: Config, s: State, step: Step)
    requires Inv(c, s) && !(step.Add? || step.Acquire? || step.Wait?) && Enabled(c, s, step)
    ensures Inv(c, Apply(c, s, step))
  {
    var s', i := Apply(c, s, step), step.i;
    NotReturned(c, s, i);
    MovedWorkerOk(c, s, step);
    Moved(c, s, s', i);
    assert WorkerOk(c, c.jobs[i], s.phases[i], s.perFile[i], s.done);
    MovedProgress(c, s, step);
    MovedTokens(c, s, step);
    DoneWithinTotal(c, s);
  }

  lemma {:induction false} MovedProgress(c: Config, s: State, step: Step)
    requires Shaped(c, s) && CountersOk(c, s) && !(step.Add? || step.Acquire? || step.Wait?) && Enabled(c, s, step)
    requires WorkerOk(c, c.jobs[step.i], s.phases[step.i], s.perFile[step.i], s.done)
    ensures var s' := Apply(c, s, step);
            s'.done == Sum(Done, c.jobs, s'.phases) && s'.total == Sum(Total, c.jobs, s'.phases)
  {
    var p := Apply(c, s, step).phases[step.i];
    SumPut(Done, c.jobs, s.phases, step.i, p);
    SumPut(Total, c.jobs, s.phases, step.i, p);
  }

  lemma {:induction false} MovedTokens(c: Config, s: State, step: Step)
    requires Shaped(c, s) && CountersOk(c, s) && !(step.Add? || step.Acquire? || step.Wait?) && Enabled(c, s, step)
    ensures var s' := Apply(c, s, step);
            && s'.slots == Sum(Slots, c.jobs, s'.phases) <= c.parallelism
            && s'.wg == Sum(Open, c.jobs, s'.phases) + (if s'.pc.Acquiring? then 1 else 0)
  {
    var p := Apply(c, s, step).phases[step.i];
    SumPut(Slots, c.jobs, s.phases, step.i, p);
    SumPut(Open, c.jobs, s.phases, step.i, p);
  }

  lemma {:induction false} InvStep(c: Config, s: State, step: Step)
    requires Inv(c, s) && Enabled(c, s, step)
    ensures Inv(c, Apply(c, s, step))
  {
    if step.Add? || step.Acquire? || step.Wait? {
      MainStep(c, s, step);
    } else {
      WorkerStep(c, s, step);
    }
  }

  lemma {:induction false} InvAlways(c: Config, s: State, steps: seq<Step>)
    requires Inv(c, s) && Allowed(c, s, steps)
    ensures Inv(c, After(c, s, steps))
    decreases |steps|
  {
    if steps != [] {
      InvStep(c, s, steps[0]);
      InvAlways(c, Apply(c, s, steps[0]), steps[1..]);
    }
  }

  // ---- Main results, for every schedule ----

  /**
   * Schedule independence: whatever the interleaving and the parallelism, the results `runAll`
   * returns are, up to elapsed times, those of running every file in turn.
   */
  lemma {:induction false} ScheduleIndependence(c: Config, steps: seq<Step>)
    requires Allowed(c, Init(c), steps) && After(c, Init(c), steps).pc.Returned?
    ensures Timeless(After(c, Init(c), steps).pc.results) == Sequential(c.jobs, c.target)
  {
    InitInv(c);
    InvAlways(c, Init(c), steps);
  }

  lemma {:induction false} SequentialAccounted(jobs: seq<Job>, target: string)
    ensures forall i :: 0 <= i < |Sequential(jobs, target)| ==> Accounted(Sequential(jobs, target)[i])
  {
    if jobs != [] {
      SequentialAccounted(jobs[1..], target);
    }
  }

  /** Whatever the schedule, each unit that ran ends up in exactly one of good, skipped and errored. */
  lemma {:induction false} ReportConserves(c: Config, steps: seq<Step>)
    requires Allowed(c, Init(c), steps) && After(c, Init(c), steps).pc.Returned?
    ensures var rs := After(c, Init(c), steps).pc.results;
            && |rs| == |Sequential(c.jobs, c.target)|
            && multiset(rs)
            == multiset(Select(rs, IsGood)) + multiset(Select(rs, IsSkipped)) + multiset(Select(rs, IsErrored))
  {
    ScheduleIndependence(c, steps);
    SequentialAccounted(c.jobs, c.target);
    var rs := After(c, Init(c), steps).pc.results;
    forall i | 0 <= i < |rs|
      ensures Accounted(rs[i])
    {
      assert Accounted(Timeless(rs)[i]);
    }
    BucketsConserve(rs);
  }

  predicate Pending(s: State, i: nat, n: int)
  {
    i < |s.phases| && s.phases[i].Counted? && s.phases[i].n == n
  }

  /** No number is printed twice, or held by two workers, or printed and held by one that is yet to print it. */
  ghost predicate NumbersOk(s: State)
  {
    && (forall i :: 0 <= i < |s.printed| ==> s.printed[i].0 <= s.done)
    && (forall i, j :: 0 <= i < j < |s.printed| ==> s.printed[i].0 != s.printed[j].0)
    && (forall i: nat, n: int :: Pending(s, i, n) ==> n <= s.done && Unprinted(s, n))
    && (forall i: nat, j: nat, n: int :: Pending(s, i, n) && Pending(s, j, n) ==> i == j)
  }

  predicate Unprinted(s: State, n: int)
  {
    forall k :: 0 <= k < |s.printed| ==> s.printed[k].0 != n
  }

  lemma {:induction false} NumbersStep(c: Config, s: State, step: Step)
    requires Shaped(c, s) && Enabled(c, s, step) && NumbersOk(s)
    ensures NumbersOk(Apply(c, s, step))
  {
    var s' := Apply(c, s, step);
    if step.Count? {
      NumberTaken(s, s', step.i);
    } else if step.Print? {
      NumberPrinted(s, s', step.i);
    } else {
      assert forall i: nat, n: int :: Pending(s', i, n) ==> Pending(s, i, n);
      assert forall n :: Unprinted(s, n) ==> Unprinted(s', n);
    }
  }

  /** `done.Add` returns a number nobody has. */
  lemma {:induction false} NumberTaken(s: State, s': State, w: nat)
    requires NumbersOk(s) && w < |s.phases| == |s'.phases| && s'.done == s.done + 1 && s'.printed == s.printed
    requires s'.phases == s.phases[w := s'.phases[w]] && Pending(s', w, s'.done)
    ensures NumbersOk(s')
  {
    forall i: nat, n: int | Pending(s', i, n)
      ensures n <= s'.done && Unprinted(s', n) && (if i == w then n == s'.done else Pending(s, i, n))
    {
      assert i != w ==> Pending(s, i, n) && Unprinted(s, n);
    }
  }

  lemma {:induction false} NumberPrinted(s: State, s': State, w: nat)
    requires NumbersOk(s) && w < |s.phases| == |s'.phases| && s.phases[w].Counted? && s'.done == s.done
    requires s'.printed == s.printed + [(s.phases[w].n, s.total)]
    requires s'.phases == s.phases[w := s'.phases[w]] && s'.phases[w].Running?
    ensures NumbersOk(s')
  {
    assert Pending(s, w, s.phases[w].n);
    forall i: nat, n: int | Pending(s', i, n)
      ensures Pending(s, i, n) && n <= s'.done && Unprinted(s', n)
    {
      assert i != w && Pending(s, i, n) && Unprinted(s, n);
    }
  }

  lemma {:induction false} NumbersAlways(c: Config, s: State, steps: seq<Step>)
    requires Shaped(c, s) && Allowed(c, s, steps) && NumbersOk(s)
    ensures NumbersOk(After(c, s, steps))
    decreases |steps|
  {
    if steps != [] {
      NumbersStep(c, s, steps[0]);
      NumbersAlways(c, Apply(c, s, steps[0]), steps[1..]);
    }
  }

  /**
   * Progress: at every moment of every schedule `done` is within `total`, and so is every pair
   * that was printed, although the two are read one after the other and `total` can shrink; no
   * number is printed twice. At the end they are equal, and every slot and wait-group count has
   * been given back.
   */
  lemma {:induction false} ProgressCounters(c: Config, steps: seq<Step>)
    requires Allowed(c, Init(c), steps)
    ensures var s := After(c, Init(c), steps);
            && 0 <= s.done <= s.total
            && PrintedOk(s)
            && (forall i, j :: 0 <= i < j < |s.printed| ==> s.printed[i].0 != s.printed[j].0)
            && (s.pc.Returned? ==> s.done == s.total && s.slots == 0 && s.wg == 0)
  {
    InitInv(c);
    InvAlways(c, Init(c), steps);
    NumbersAlways(c, Init(c), steps);
    var s := After(c, Init(c), steps);
    DoneWithinTotal(c, s);
    SumPositive(Done, c.jobs, s.phases);
    if s.pc.Returned? {
      AtReturn(c, s);
    }
  }

  lemma {:induction false} AtReturn(c: Config, s: State)
    requires Inv(c, s) && s.pc.Returned?
    ensures s.total <= s.done && s.slots == 0 && s.wg == 0
  {
    AllFinished(c, s);
    SumOrder(Total, Done, c.jobs, s.phases);
    SumPositive(Slots, c.jobs, s.phases);
  }

  /** The files from index `k` on whose workers hold a slot. */
  function InFlight(s: State, k: nat): set<nat>
  {
    set i: nat | k <= i < |s.phases| && HoldsSlot(s.phases[i])
  }

  lemma {:induction false} SlotsCountWorkers(c: Config, s: State, k: nat)
    requires Shaped(c, s) && k <= |c.jobs|
    ensures Sum(Slots, c.jobs[k..], s.phases[k..]) == |InFlight(s, k)|
    decreases |c.jobs| - k
  {
    if k < |c.jobs| {
      SlotsCountWorkers(c, s, k + 1);
      assert c.jobs[k..][0] == c.jobs[k] && s.phases[k..][0] == s.phases[k];
      assert c.jobs[k..][1..] == c.jobs[k + 1..] && s.phases[k..][1..] == s.phases[k + 1..];
      var later := InFlight(s, k + 1);
      assert k !in later;
      if HoldsSlot(s.phases[k]) {
        assert InFlight(s, k) == later + {k};
      } else {
        assert InFlight(s, k) == later;
      }
    } else {
      assert InFlight(s, k) == {};
    }
  }

  /** No schedule ever has more than `parallelism` files in flight. */
  lemma {:induction false} BoundedParallelism(c: Config, steps: seq<Step>)
    requires Allowed(c, Init(c), steps)
    ensures |InFlight(After(c, Init(c), steps), 0)| <= c.parallelism
  {
    InitInv(c);
    InvAlways(c, Init(c), steps);
    var s := After(c, Init(c), steps);
    SlotsCountWorkers(c, s, 0);
    assert c.jobs[0..] == c.jobs && s.phases[0..] == s.phases;
  }

  /** Steps left to take, at most. */
  function Remaining(c: Config, s: State): int
    requires Shaped(c, s)
  {
    Sum(Work, c.jobs, s.phases) +
    match s.pc
    case Adding => 2 * (|c.jobs| - s.next) + 1
    case Acquiring => 2 * (|c.jobs| - s.next)
    case Waiting => 1
    case Returned(_) => 0
  }

  lemma {:induction false} StepsRunOut(c: Config, s: State, step: Step)
    requires Inv(c, s) && Enabled(c, s, step)
    ensures Remaining(c, s) > 0
    ensures Shaped(c, Apply(c, s, step)) && Remaining(c, Apply(c, s, step)) < Remaining(c, s)
  {
    InvStep(c, s, step);
    var s' := Apply(c, s, step);
    RemainingNat(c, s');
    if step.Acquire? {
      SumPut(Work, c.jobs, s.phases, s.next, Expanding);
    } else if !step.Add? && !step.Wait? {
      WorkDrops(c, s, step);
      SumPut(Work, c.jobs, s.phases, step.i, s'.phases[step.i]);
    }
  }

  lemma {:induction false} WorkDrops(c: Config, s: State, step: Step)
    requires Shaped(c, s) && !(step.Add? || step.Acquire? || step.Wait?) && Enabled(c, s, step)
    ensures var s' := Apply(c, s, step);
            && s'.phases == s.phases[step.i := s'.phases[step.i]] && s'.pc == s.pc && s'.next == s.next
            && Weight(Work, c.jobs[step.i], s'.phases[step.i]) < Weight(Work, c.jobs[step.i], s.phases[step.i])
  {
  }

  lemma {:induction false} RemainingNat(c: Config, s: State)
    requires Inv(c, s)
    ensures Remaining(c, s) >= 0
  {
    forall i | 0 <= i < |c.jobs|
      ensures Weight(Work, c.jobs[i], s.phases[i]) >= 0
    {
      assert WorkerOk(c, c.jobs[i], s.phases[i], s.perFile[i], s.done);
    }
    SumPositive(Work, c.jobs, s.phases);
  }

  /** Termination: no schedule is longer than a number fixed by the files. */
  lemma {:induction false} SchedulesAreFinite(c: Config, s: State, steps: seq<Step>)
    requires Inv(c, s) && Allowed(c, s, steps)
    ensures |steps| <= Remaining(c, s)
    decreases |steps|
  {
    RemainingNat(c, s);
    if steps != [] {
      InvStep(c, s, steps[0]);
      StepsRunOut(c, s, steps[0]);
      SchedulesAreFinite(c, Apply(c, s, steps[0]), steps[1..]);
    }
  }

  /** A worker that has started and not finished can always move. */
  function WorkerMove(c: Config, s: State, i: nat): (step: Step)
    requires Inv(c, s) && i < |c.jobs| && s.phases[i] != Queued && s.phases[i] != Finished
    ensures Enabled(c, s, step)
  {
    assert WorkerOk(c, c.jobs[i], s.phases[i], s.perFile[i], s.done);
    match s.phases[i]
    case Expanding => Expand(i)
    case Running(out) => if |out| < |c.jobs[i].expansion.value| then Count(i, 0) else Store(i)
    case Counted(_, _, _) => Print(i)
    case Filed => Release(i)
    case Released => Finish(i)
  }

  /** Deadlock freedom: with at least one slot, a run that has not returned can go on. */
  lemma {:induction false} CanMove(c: Config, s: State) returns (step: Step)
    requires Inv(c, s) && !s.pc.Returned? && (c.parallelism >= 1 || c.jobs == [])
    ensures Enabled(c, s, step)
  {
    SumPositive(Slots, c.jobs, s.phases);
    SumPositive(Open, c.jobs, s.phases);
    if s.pc.Adding? {
      step := Add;
    } else if s.pc.Acquiring? && s.slots < c.parallelism {
      step := Acquire;
    } else if s.pc.Waiting? && s.wg == 0 {
      step := Wait;
    } else {
      var g := if s.pc.Acquiring? then Slots else Open;
      var i :| 0 <= i < |c.jobs| && Weight(g, c.jobs[i], s.phases[i]) > 0;
      step := WorkerMove(c, s, i);
    }
  }

  /** Every run can be completed, however it was scheduled so far. */
  lemma {:induction false} CanReturn(c: Config, s: State) returns (steps: seq<Step>)
    requires Inv(c, s) && (c.parallelism >= 1 || c.jobs == [])
    ensures Allowed(c, s, steps) && After(c, s, steps).pc.Returned?
    decreases Remaining(c, s)
  {
    if s.pc.Returned? {
      steps := [];
    } else {
      var step := CanMove(c, s);
      InvStep(c, s, step);
      StepsRunOut(c, s, step);
      var rest := CanReturn(c, Apply(c, s, step));
      steps := [step] + rest;
    }
  }

  ghost predicate Stuck(c: Config, s: State)
    requires Shaped(c, s)
  {
    !s.pc.Returned? && forall step :: !Enabled(c, s, step)
  }

  /** A schedule that leads into a state from which nothing can move. */
  ghost predicate Hangs(c: Config, steps: seq<Step>)
  {
    Allowed(c, Init(c), steps) && Stuck(c, After(c, Init(c), steps))
  }

  /** The check on `--jobs` in `main` is exactly what rules out a run that hangs. */
  lemma {:induction false} NeverStuckIff(c: Config)
    ensures (forall steps :: !Hangs(c, steps)) <==> c.parallelism >= 1 || c.jobs == []
  {
    if c.parallelism == 0 && c.jobs != [] {
      var steps := HangsWithoutSlots(c);
      assert Hangs(c, steps);
    } else {
      forall steps
        ensures !Hangs(c, steps)
      {
        NeverHangs(c, steps);
      }
    }
  }

  lemma {:induction false} NeverHangs(c: Config, steps: seq<Step>)
    requires c.parallelism >= 1 || c.jobs == []
    ensures !Hangs(c, steps)
  {
    if Hangs(c, steps) {
      InitInv(c);
      InvAlways(c, Init(c), steps);
      var step := CanMove(c, After(c, Init(c), steps));
    }
  }

  /** Without slots the first `sem <-` blocks for ever. */
  lemma {:induction false} HangsWithoutSlots(c: Config) returns (steps: seq<Step>)
    requires c.parallelism == 0 && c.jobs != []
    ensures Hangs(c, steps)
  {
    steps := [Add];
    var s := Apply(c, Init(c), Add);
    assert steps[1..] == [] && Allowed(c, s, []);
    assert Allowed(c, Init(c), steps) && After(c, Init(c), steps) == s;
    forall step
      ensures !Enabled(c, s, step)
    {
    }
  }
}
