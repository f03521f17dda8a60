/**
 * What `runAll` prints and returns, read off a schedule alone: which calls of `done.Add`, which
 * expansions and which units came before, without any of the counters the workers share.
 */
module Schedules {
  import opened Bytes
  import opened Verdicts
  import opened Runner

  function Front(steps: seq<Step>): (r: seq<Step>)
    requires steps != []
    ensures |r| == |steps| - 1
  {
    steps[..|steps| - 1]
  }

  function Last(steps: seq<Step>): Step
    requires steps != []
  {
    steps[|steps| - 1]
  }

  predicate IsExpansion(c: Config, step: Step)
  {
    step.Expand? && step.i < |c.jobs|
  }

  /** Calls of `done.Add`: one per unit that finished, one per file that failed to expand. */
  function DoneCalls(c: Config, steps: seq<Step>): nat
  {
    if steps == [] then 0
    else DoneCalls(c, Front(steps)) +
         if Last(steps).Count? || (IsExpansion(c, Last(steps)) && c.jobs[Last(steps).i].expansion.None?) then 1 else 0
  }

  /** The number of files, corrected by every expansion so far to the number of its units. */
  function TotalAfter(c: Config, steps: seq<Step>): int
  {
    if steps == [] then |c.jobs|
    else TotalAfter(c, Front(steps)) +
         if IsExpansion(c, Last(steps)) && c.jobs[Last(steps).i].expansion.Some?
         then |c.jobs[Last(steps).i].expansion.value| - 1 else 0
  }

  /** Which call of `done.Add` the latest one of worker `i` was. */
  function NumberOf(c: Config, steps: seq<Step>, i: nat): int
  {
    if steps == [] then 0
    else if Last(steps).Count? && Last(steps).i == i then DoneCalls(c, steps)
    else NumberOf(c, Front(steps), i)
  }

  /** The progress report: each line has its worker's number and the total of the moment it is printed. */
  function Report(c: Config, steps: seq<Step>): seq<(int, int)>
  {
    if steps == [] then []
    else Report(c, Front(steps)) +
         if Last(steps).Print? then [(NumberOf(c, Front(steps), Last(steps).i), TotalAfter(c, Front(steps)))] else []
  }

  /** The results of worker `i`: its units in order, each with the time its own run took. */
  function Ran(c: Config, steps: seq<Step>, i: nat): seq<BlockResult>
    requires i < |c.jobs|
  {
    if steps == [] then []
    else
      var before := Ran(c, Front(steps), i);
      match Last(steps)
      case Count(w, elapsed) =>
        if w == i && c.jobs[i].expansion.Some? && |before| < |c.jobs[i].expansion.value|
        then before + [RunUnit(c.jobs[i].expansion.value[|before|], c.target, elapsed)] else before
      case _ => before
  }

  function AllRan(c: Config, steps: seq<Step>): (rss: seq<seq<BlockResult>>)
    ensures |rss| == |c.jobs|
  {
    seq(|c.jobs|, i requires 0 <= i < |c.jobs| => Ran(c, steps, i))
  }

  /** Worker `i` has what the schedule says. */
  predicate WorkerFollows(c: Config, steps: seq<Step>, i: nat, p: Phase, stored: seq<BlockResult>)
    requires i < |c.jobs|
  {
    var ran := Ran(c, steps, i);
    match p
    case Queued => stored == [] && ran == []
    case Expanding => stored == [] && ran == []
    case Running(out) => out == ran
    case Counted(out, res, n) => out + [res] == ran && n == NumberOf(c, steps, i)
    case _ => stored == ran
  }

  predicate WorkersFollow(c: Config, s: State, steps: seq<Step>)
    requires Shaped(c, s)
  {
    forall i :: 0 <= i < |c.jobs| ==> WorkerFollows(c, steps, i, s.phases[i], s.perFile[i])
  }

  predicate Follows(c: Config, s: State, steps: seq<Step>)
    requires Shaped(c, s)
  {
    && s.done == DoneCalls(c, steps) && s.total == TotalAfter(c, steps) && s.printed == Report(c, steps)
    && WorkersFollow(c, s, steps)
    && (s.pc.Returned? ==> s.pc.results == Concat(s.perFile))
  }

  lemma Snoc(steps: seq<Step>, step: Step)
    ensures Front(steps + [step]) == steps && Last(steps + [step]) == step
  {
  }

  /** A worker the step does not name keeps what it has. */
  lemma {:induction false} OtherFollows(c: Config, s: State, steps: seq<Step>, step: Step, i: nat)
    requires Shaped(c, s) && Enabled(c, s, step) && i < |c.jobs|
    requires step.Count? ==> step.i != i
    ensures Ran(c, steps + [step], i) == Ran(c, steps, i) && NumberOf(c, steps + [step], i) == NumberOf(c, steps, i)
  {
    Snoc(steps, step);
  }

  lemma {:induction false} CountFollows(c: Config, s: State, steps: seq<Step>, step: Step)
    requires Shaped(c, s) && step.Count? && Enabled(c, s, step) && Follows(c, s, steps)
    ensures var s' := Apply(c, s, step);
            WorkerFollows(c, steps + [step], step.i, s'.phases[step.i], s'.perFile[step.i])
  {
    Snoc(steps, step);
    assert WorkerFollows(c, steps, step.i, s.phases[step.i], s.perFile[step.i]);
  }

  /** One that moves, other than by counting, goes on with what it has. */
  lemma {:induction false} MoverFollows(c: Config, s: State, steps: seq<Step>, step: Step)
    requires Shaped(c, s) && Enabled(c, s, step) && !(step.Add? || step.Acquire? || step.Wait? || step.Count?)
    requires WorkerFollows(c, steps, step.i, s.phases[step.i], s.perFile[step.i])
    requires step.Expand? ==> s.perFile[step.i] == []
    ensures var s' := Apply(c, s, step);
            WorkerFollows(c, steps + [step], step.i, s'.phases[step.i], s'.perFile[step.i])
  {
    OtherFollows(c, s, steps, step, step.i);
  }

  /** One worker, whoever moves. */
  lemma {:induction false} WorkerFollowsStep(c: Config, s: State, steps: seq<Step>, step: Step, i: nat)
    requires Shaped(c, s) && Enabled(c, s, step) && i < |c.jobs|
    requires WorkerFollows(c, steps, i, s.phases[i], s.perFile[i]) && !(step.Count? && step.i == i)
    requires step.Acquire? ==> s.phases[s.next].Queued?
    requires step.Expand? ==> s.perFile[step.i] == []
    ensures var s' := Apply(c, s, step);
            WorkerFollows(c, steps + [step], i, s'.phases[i], s'.perFile[i])
  {
    if step.Add? || step.Acquire? || step.Wait? || step.i != i {
      OtherFollows(c, s, steps, step, i);
    } else {
      MoverFollows(c, s, steps, step);
    }
  }

  lemma {:induction false} WorkersFollowStep(c: Config, s: State, steps: seq<Step>, step: Step)
    requires Shaped(c, s) && Enabled(c, s, step) && Follows(c, s, steps) && Shaped(c, Apply(c, s, step))
    requires step.Acquire? ==> s.phases[s.next].Queued?
    requires step.Expand? ==> s.perFile[step.i] == []
    ensures WorkersFollow(c, Apply(c, s, step), steps + [step])
  {
    var s' := Apply(c, s, step);
    forall i | 0 <= i < |c.jobs|
      ensures WorkerFollows(c, steps + [step], i, s'.phases[i], s'.perFile[i])
    {
      if step.Count? && step.i == i {
        CountFollows(c, s, steps, step);
      } else {
        WorkerFollowsStep(c, s, steps, step, i);
      }
    }
  }

  lemma {:induction false} CountersFollow(c: Config, s: State, steps: seq<Step>, step: Step)
    requires Shaped(c, s) && Enabled(c, s, step) && Follows(c, s, steps)
    ensures var s', more := Apply(c, s, step), steps + [step];
            s'.done == DoneCalls(c, more) && s'.total == TotalAfter(c, more) && s'.printed == Report(c, more)
  {
    Snoc(steps, step);
    if step.Print? {
      assert WorkerFollows(c, steps, step.i, s.phases[step.i], s.perFile[step.i]);
    }
  }

  lemma {:induction false} FollowsStep(c: Config, s: State, steps: seq<Step>, step: Step)
    requires Inv(c, s) && Enabled(c, s, step) && Follows(c, s, steps)
    ensures Inv(c, Apply(c, s, step)) && Follows(c, Apply(c, s, step), steps + [step])
  {
    InvStep(c, s, step);
    if step.Expand? {
      assert WorkerOk(c, c.jobs[step.i], s.phases[step.i], s.perFile[step.i], s.done);
    }
    WorkersFollowStep(c, s, steps, step);
    CountersFollow(c, s, steps, step);
    if s.pc.Returned? {
      Over(c, s, step);
    }
  }

  /** A run that has returned is over. */
  lemma {:induction false} Over(c: Config, s: State, step: Step)
    requires Inv(c, s) && s.pc.Returned?
    ensures !Enabled(c, s, step)
  {
    AllFinished(c, s);
  }

  lemma Chain(past: seq<Step>, steps: seq<Step>)
    requires steps != []
    ensures past + [steps[0]] + steps[1..] == past + steps
  {
  }

  lemma {:induction false} FollowsAlways(c: Config, s: State, past: seq<Step>, steps: seq<Step>)
    requires Inv(c, s) && Allowed(c, s, steps) && Follows(c, s, past)
    ensures Inv(c, After(c, s, steps)) && Follows(c, After(c, s, steps), past + steps)
    decreases |steps|
  {
    if steps == [] {
      assert past + steps == past;
    } else {
      FollowsStep(c, s, past, steps[0]);
      FollowsAlways(c, Apply(c, s, steps[0]), past + [steps[0]], steps[1..]);
      Chain(past, steps);
    }
  }

  /**
   * The progress report is true. In every schedule the counters are the number of `done.Add`
   * calls and the number of files corrected by the expansions so far, and each printed line has
   * its worker's own call number and the total of that moment.
   */
  lemma {:induction false} ProgressIsTrue(c: Config, steps: seq<Step>)
    requires Allowed(c, Init(c), steps)
    ensures var s := After(c, Init(c), steps);
            s.done == DoneCalls(c, steps) && s.total == TotalAfter(c, steps) && s.printed == Report(c, steps)
  {
    InitInv(c);
    FollowsAlways(c, Init(c), [], steps);
    assert [] + steps == steps;
  }

  /** What is returned, elapsed times included: the results of every worker, in discovery order. */
  lemma {:induction false} ReturnedExactly(c: Config, steps: seq<Step>)
    requires Allowed(c, Init(c), steps) && After(c, Init(c), steps).pc.Returned?
    ensures After(c, Init(c), steps).pc.results == Concat(AllRan(c, steps))
  {
    InitInv(c);
    FollowsAlways(c, Init(c), [], steps);
    assert [] + steps == steps;
    var s := After(c, Init(c), steps);
    AllFinished(c, s);
    forall i | 0 <= i < |c.jobs|
      ensures s.perFile[i] == AllRan(c, steps)[i]
    {
      assert WorkerFollows(c, steps, i, s.phases[i], s.perFile[i]);
    }
    assert s.perFile == AllRan(c, steps);
  }
}
