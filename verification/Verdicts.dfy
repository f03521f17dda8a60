/** What one bench unit reports: the per-format verdict rules, `runUnit` and the bucketing in `main`. */
module Verdicts {
  import opened Bytes

  datatype CostReport = CostReport(
    base: u64, mainCost: u64, opcodes: u64, precompiles: u64, memory: u64, total: u64,
    instructions: u64, cycles: u64, steps: u64)

  const NO_COSTS := CostReport(0, 0, 0, 0, 0, 0, 0, 0, 0)

  /** An error value; `MissingInput` is what `errors.Is(err, ErrMissingStatelessInputBytes)` matches. */
  datatype RunError = MissingInput | OtherError(message: string)

  datatype EmuResult = EmuResult(costs: CostReport, outputHex: string, rawOut: string, execErr: string)

  const NO_RESULT := EmuResult(NO_COSTS, "", "", "")

  datatype BlockInfo = BlockInfo(
    txCount: nat, gasUsed: u64, legacyTxs: nat, eip1559Txs: nat, eip2930Txs: nat, eip4844Txs: nat, eip7702Txs: nat)

  const NO_INFO := BlockInfo(0, 0, 0, 0, 0, 0, 0)

  datatype Encoded = Encoded(input: Bytes, info: BlockInfo, expectedSuccess: bool, expectedOutputHex: string)

  datatype VerdictKind = Pass | Fail | Skip | Unverified | Error

  datatype Verdict = Verdict(
    kind: VerdictKind, expectedSuccess: bool, gotSuccess: bool,
    expectedOutputHex: string, gotOutputHex: string, outputMatch: bool)

  function LowerChar(c: char): char
  {
    if 'A' <= c <= 'Z' then (c as int + 32) as char else c
  }

  function Lower(s: string): (r: string)
    ensures |r| == |s|
  {
    seq(|s|, i requires 0 <= i < |s| => LowerChar(s[i]))
  }

  /** `normaliseHex`. */
  function NormaliseHex(s: string): string
  {
    Lower(if "0x" <= s then s[2..] else s)
  }

  /** `expectedSuccessFromOutput`: byte 32 of the hex, missing counts as success. */
  predicate SuccessByte(hex: string)
  {
    |hex| < 66 || hex[64..66] != "00"
  }

  /** The comparison looks at no more of the output than the fixture predicts. */
  function TrimTo(expected: string, got: string): string
  {
    if |expected| > 0 && |got| > |expected| then got[..|expected|] else got
  }

  /** `verifyEEST`: the output bytes decide, the guest's own error message does not. */
  function VerifyEEST(enc: Encoded, r: EmuResult, runErr: Option<RunError>): (v: Verdict)
    ensures v.kind == Error <==> runErr.Some? && runErr.value != MissingInput
    ensures v.kind == Skip <==> runErr == Some(MissingInput)
    ensures v.kind == Unverified <==> runErr.None? && enc.expectedOutputHex == ""
    ensures v.kind == Pass
       <==> runErr.None? && enc.expectedOutputHex != "" && enc.expectedOutputHex <= NormaliseHex(r.outputHex)
    ensures v.outputMatch <==> v.kind == Pass
    ensures v.kind == Pass ==> v.gotSuccess == SuccessByte(enc.expectedOutputHex)
    ensures runErr.Some? ==> !v.gotSuccess
    ensures runErr.None? && 66 <= |NormaliseHex(r.outputHex)| && (enc.expectedOutputHex == "" || 66 <= |enc.expectedOutputHex|)
            ==> (v.gotSuccess <==> NormaliseHex(r.outputHex)[64..66] != "00")
    ensures v.expectedSuccess == enc.expectedSuccess
    ensures v.expectedOutputHex == enc.expectedOutputHex && v.gotOutputHex == r.outputHex
  {
    var v := Verdict(Error, enc.expectedSuccess, false, enc.expectedOutputHex, r.outputHex, false);
    if runErr == Some(MissingInput) then v.(kind := Skip)
    else if runErr.Some? then v
    else
      var full := NormaliseHex(r.outputHex);
      var got := TrimTo(enc.expectedOutputHex, full);
      assert |got| >= 66 ==> got[64..66] == full[64..66];
      var w := v.(gotSuccess := SuccessByte(got));
      if enc.expectedOutputHex == "" then w.(kind := Unverified)
      else if got != enc.expectedOutputHex then w.(kind := Fail)
      else w.(kind := Pass, outputMatch := true)
  }

  /** `verifyCorpus`: the guest's success flag against the fixture's. */
  function VerifyCorpus(enc: Encoded, r: EmuResult, runErr: Option<RunError>): (v: Verdict)
    ensures v.kind == Error <==> runErr.Some?
    ensures v.kind == Pass <==> runErr.None? && (r.execErr == "") == enc.expectedSuccess
    ensures v.kind != Skip && v.kind != Unverified
    ensures v.gotSuccess <==> runErr.None? && r.execErr == ""
    ensures v.expectedSuccess == enc.expectedSuccess && v.gotOutputHex == r.outputHex
  {
    var got := runErr.None? && r.execErr == "";
    var kind := if runErr.Some? then Error else if got != enc.expectedSuccess then Fail else Pass;
    Verdict(kind, enc.expectedSuccess, got, "", r.outputHex, false)
  }

  // ---- What the hex comparisons mean for the bytes ----

  /** `hex.EncodeToString`. */
  function Hex(b: Bytes): (s: string)
    ensures |s| == 2 * |b|
  {
    if b == [] then "" else [Digits[b[0] / 16], Digits[b[0] % 16]] + Hex(b[1..])
  }

  const Digits: string := "0123456789abcdef"
  const CapitalDigits: string := "0123456789ABCDEF"

  /** `s` spells the lower-case hex `t`, each digit in either case. */
  predicate Spells(s: string, t: string)
  {
    |s| == |t| && forall i :: 0 <= i < |s| ==>
      exists v :: 0 <= v < 16 && t[i] == Digits[v] && (s[i] == Digits[v] || s[i] == CapitalDigits[v])
  }

  /** Case and a leading 0x do not matter: every spelling of some bytes normalises to the same string. */
  lemma {:induction false} NormalisesSpelling(s: string, t: string)
    requires Spells(s, t)
    ensures NormaliseHex(s) == t && NormaliseHex("0x" + s) == t
  {
    assert |s| >= 2 ==> s[1] != 'x';
    assert ("0x" + s)[2..] == s;
    forall i | 0 <= i < |s|
      ensures LowerChar(s[i]) == t[i]
    {
      var v :| 0 <= v < 16 && t[i] == Digits[v] && (s[i] == Digits[v] || s[i] == CapitalDigits[v]);
    }
    assert Lower(s) == t;
  }

  lemma {:induction false} HexAt(b: Bytes, i: nat)
    requires i < |b|
    ensures Hex(b)[2 * i..2 * i + 2] == [Digits[b[i] / 16], Digits[b[i] % 16]]
  {
    if i > 0 {
      HexAt(b[1..], i - 1);
      var h, t := Hex(b), Hex(b[1..]);
      assert h[2..] == t;
      assert h[2 * i..2 * i + 2] == t[2 * (i - 1)..2 * (i - 1) + 2];
    }
  }

  /** The success flag of an output: its 33rd byte is not zero, and a shorter output counts as success. */
  lemma {:induction false} SuccessIsByte32(b: Bytes)
    ensures SuccessByte(Hex(b)) <==> |b| <= 32 || b[32] != 0
  {
    if |b| > 32 {
      HexAt(b, 32);
      var pair := [Digits[b[32] / 16], Digits[b[32] % 16]];
      assert pair == "00" <==> pair[0] == '0' && pair[1] == '0';
    }
  }

  // ---- The other runner ----

  /** The rule inside cmd/zkevm-runner's worker; it compares the emulator's hex as it came. */
  predicate ValidationOK(dump: bool, expected: string, got: string, runErr: Option<RunError>)
    ensures ValidationOK(dump, expected, got, runErr) <==> dump || (runErr.None? && expected <= got)
  {
    var cmp := TrimTo(expected, got);
    var outputMatch := expected == "" || cmp == expected;
    dump || (runErr.None? && outputMatch)
  }

  /** What `hex.EncodeToString` produces. */
  predicate LowerHex(s: string)
  {
    forall i :: 0 <= i < |s| ==> '0' <= s[i] <= '9' || 'a' <= s[i] <= 'f'
  }

  lemma LowerHexIsNormal(s: string)
    requires LowerHex(s)
    ensures NormaliseHex(s) == s
  {
    assert |s| >= 2 ==> s[1] != 'x';
    assert !("0x" <= s);
  }

  // ---- One unit ----

  datatype Format = Corpus | Zkevm

  datatype UnitMeta = UnitMeta(name: string, blockNum: u64, suite: string, network: string, kind: Format, info: BlockInfo)

  /**
   * A unit with its oracles: what `Encode` returns, and what the emulator returns if it is run
   * on the encoded input.
   */
  datatype Unit = Unit(meta: UnitMeta, enc: Encoded, encErr: Option<RunError>, emu: EmuResult, emuErr: Option<RunError>)

  datatype BlockResult = BlockResult(
    blockNum: u64, name: string, suite: string, network: string, kind: Format, target: string,
    elapsed: nat, verdict: Verdict, outputHex: string, info: BlockInfo,
    costs: CostReport, execError: string, err: Option<RunError>, errOutput: string)

  /** `runUnit`, with the elapsed time as a parameter. */
  function RunUnit(u: Unit, target: string, elapsed: nat): (res: BlockResult)
    ensures u.meta.kind == Corpus ==>
              res.verdict.kind ==
              if u.encErr.Some? || u.emuErr.Some? then Error
              else if (u.emu.execErr == "") == u.enc.expectedSuccess then Pass else Fail
    ensures u.meta.kind == Zkevm ==>
              var err := if u.encErr.Some? then u.encErr else u.emuErr;
              res.verdict.kind ==
              if err == Some(MissingInput) then Skip
              else if err.Some? then Error
              else if u.enc.expectedOutputHex == "" then Unverified
              else if u.enc.expectedOutputHex <= NormaliseHex(u.emu.outputHex) then Pass else Fail
    ensures res.verdict.expectedSuccess == u.enc.expectedSuccess
    ensures res.verdict.gotOutputHex == if u.encErr.Some? then "" else u.emu.outputHex
    ensures res.errOutput == if res.err.Some? && u.encErr.None? then u.emu.rawOut else ""
    ensures res.err.Some? <==> res.verdict.kind == Error
    ensures res.err.Some? ==> res.costs == NO_COSTS && res.execError == ""
    ensures u.encErr.None? && res.err.None? ==> res.costs == u.emu.costs && res.execError == u.emu.execErr
    ensures res.err.Some? ==> res.err == if u.encErr.Some? then u.encErr else u.emuErr
    ensures res.outputHex == res.verdict.gotOutputHex
    ensures res.info == if u.enc.info == NO_INFO then u.meta.info else u.enc.info
    ensures (res.blockNum, res.name, res.suite, res.network, res.kind, res.target)
         == (u.meta.blockNum, u.meta.name, u.meta.suite, u.meta.network, u.meta.kind, target)
    ensures u.encErr.Some? ==> res.costs == NO_COSTS && res.execError == "" && res.outputHex == ""
    ensures res == RunUnit(u, target, 0).(elapsed := elapsed)
  {
    var ran := u.encErr.None?;
    var r := if ran then u.emu else NO_RESULT;
    var runErr := if ran then u.emuErr else u.encErr;
    var v := if u.meta.kind == Zkevm then VerifyEEST(u.enc, r, runErr) else VerifyCorpus(u.enc, r, runErr);
    var info := if u.enc.info != NO_INFO then u.enc.info else u.meta.info;
    var failed := v.kind == Error;
    BlockResult(
      u.meta.blockNum, u.meta.name, u.meta.suite, u.meta.network, u.meta.kind, target, elapsed, v, r.outputHex, info,
      if failed then NO_COSTS else r.costs, if failed then "" else r.execErr,
      if failed then runErr else None, if failed then r.rawOut else "")
  }

  // ---- The two tools on one emulator run ----

  /** What a ZisK emulator process left behind. */
  datatype Process = Process(
    exitOk: bool, costs: CostReport, foundCosts: bool, outputHex: string, rawOut: string, execErr: string)

  const DEFAULT_MAX_STEPS: u64 := 68719476735

  /** The run reached its step cap; `maxSteps` 0 leaves the emulator on its default. */
  predicate Capped(maxSteps: u64, p: Process)
  {
    p.costs.steps >= if maxSteps > 0 then maxSteps else DEFAULT_MAX_STEPS
  }

  function ResultOf(p: Process): EmuResult
  {
    EmuResult(p.costs, p.outputHex, p.rawOut, p.execErr)
  }

  /** The error of `emu.Run`: the step cap first, then the exit status, then a missing cost table. */
  function ErrorOf(maxSteps: u64, requireCosts: bool, p: Process): Option<RunError>
  {
    if Capped(maxSteps, p) then Some(OtherError("step limit reached"))
    else if !p.exitOk then Some(OtherError("zkvm"))
    else if requireCosts && !p.foundCosts then Some(OtherError("no cost report in emulator output"))
    else None
  }

  /** bench on a zkevm unit: `runEmu` requires a cost table, `--maxSteps` sets the cap. */
  predicate BenchPasses(meta: UnitMeta, enc: Encoded, encErr: Option<RunError>, maxSteps: u64, p: Process)
  {
    RunUnit(Unit(meta, enc, encErr, ResultOf(p), ErrorOf(maxSteps, true, p)), "zisk", 0).verdict.kind == Pass
  }

  /** zkevm-runner outside dump mode: `runOne` requires no cost table and leaves the cap alone. */
  predicate RunnerPasses(enc: Encoded, encErr: Option<RunError>, p: Process)
  {
    if encErr.Some? then ValidationOK(false, enc.expectedOutputHex, "", encErr)
    else ValidationOK(false, enc.expectedOutputHex, p.outputHex, ErrorOf(0, false, p))
  }

  /**
   * When the two tools agree on the same emulator run. A failed encoding, a failed process and a
   * wrong output pass in neither. Otherwise zkevm-runner fails only at the default step cap, and
   * bench fails at its own cap, without a cost table and without an expected output: they agree
   * iff both have, or neither has, such a reason.
   */
  lemma {:induction false} RunnersAgreeIff(
    meta: UnitMeta, enc: Encoded, encErr: Option<RunError>, maxSteps: u64, p: Process)
    requires meta.kind == Zkevm && LowerHex(p.outputHex)
    ensures (BenchPasses(meta, enc, encErr, maxSteps, p) <==> RunnerPasses(enc, encErr, p))
       <==> || encErr.Some? || !p.exitOk || !(enc.expectedOutputHex <= p.outputHex)
            || (p.costs.steps >= 68719476735 <==>
                p.costs.steps >= (if maxSteps > 0 then maxSteps else 68719476735) || !p.foundCosts || enc.expectedOutputHex == "")
  {
    LowerHexIsNormal(p.outputHex);
  }

  /** With the default cap on both sides a bench pass is a zkevm-runner pass; this is when the converse holds. */
  lemma {:induction false} DefaultCapAgreeIff(meta: UnitMeta, enc: Encoded, encErr: Option<RunError>, p: Process)
    requires meta.kind == Zkevm && LowerHex(p.outputHex)
    ensures BenchPasses(meta, enc, encErr, 0, p) ==> RunnerPasses(enc, encErr, p)
    ensures (RunnerPasses(enc, encErr, p) ==> BenchPasses(meta, enc, encErr, 0, p))
       <==> || encErr.Some? || p.costs.steps >= 68719476735 || !p.exitOk || !(enc.expectedOutputHex <= p.outputHex)
            || (p.foundCosts && enc.expectedOutputHex != "")
  {
    LowerHexIsNormal(p.outputHex);
  }

  /**
   * The three ways to disagree, on a process that exited well: no expected output, no cost table
   * although the output matches, and a cap below the steps the run took.
   */
  lemma {:induction false} RunnersCanDisagree(meta: UnitMeta, input: Bytes)
    requires meta.kind == Zkevm
    ensures var p := Process(true, NO_COSTS.(steps := 100), true, "ab", "", "");
            var blank := Encoded(input, NO_INFO, true, "");
            var same := Encoded(input, NO_INFO, true, "ab");
            && RunnerPasses(blank, None, p) && !BenchPasses(meta, blank, None, 0, p)
            && RunnerPasses(same, None, p.(foundCosts := false))
            && !BenchPasses(meta, same, None, 0, p.(foundCosts := false))
            && RunnerPasses(same, None, p) && !BenchPasses(meta, same, None, 100, p)
            && BenchPasses(meta, same, None, 0, p)
  {
    LowerHexIsNormal("ab");
  }

  // ---- Bucketing ----

  predicate IsGood(r: BlockResult)
  {
    r.verdict.kind == Pass || r.verdict.kind == Fail || r.verdict.kind == Unverified
  }

  predicate IsSkipped(r: BlockResult)
  {
    r.verdict.kind == Skip
  }

  predicate IsErrored(r: BlockResult)
  {
    r.err.Some?
  }

  predicate IsFailure(r: BlockResult)
  {
    r.verdict.kind == Fail
  }

  predicate IsPass(r: BlockResult)
  {
    r.verdict.kind == Pass
  }

  predicate IsUnverified(r: BlockResult)
  {
    r.verdict.kind == Unverified
  }

  function Select<T>(rs: seq<T>, p: T -> bool): (s: seq<T>)
    ensures |s| <= |rs|
  {
    if rs == [] then []
    else Select(rs[..|rs| - 1], p) + (if p(rs[|rs| - 1]) then [rs[|rs| - 1]] else [])
  }

  /** The loop in `main`: the units the statistics are computed over, the failures among them, and counts. */
  method Bucket(results: seq<BlockResult>)
    returns (good: seq<BlockResult>, failures: seq<BlockResult>, skipped: nat, unverified: nat)
    ensures good == Select(results, IsGood)
    ensures failures == Select(results, IsFailure)
    ensures skipped == |Select(results, IsSkipped)|
    ensures unverified == |Select(results, IsUnverified)|
  {
    good, failures, skipped, unverified := [], [], 0, 0;
    for i := 0 to |results|
      invariant good == Select(results[..i], IsGood)
      invariant failures == Select(results[..i], IsFailure)
      invariant skipped == |Select(results[..i], IsSkipped)|
      invariant unverified == |Select(results[..i], IsUnverified)|
    {
      var r := results[i];
      assert results[..i + 1][..i] == results[..i];
      match r.verdict.kind
      case Skip => skipped := skipped + 1;
      case Error =>
      case Fail =>
        good := good + [r];
        failures := failures + [r];
      case Unverified =>
        unverified := unverified + 1;
        good := good + [r];
      case Pass => good := good + [r];
    }
    assert results[..|results|] == results;
  }

  /** What `RunUnit` guarantees of every result it produces. */
  predicate Accounted(r: BlockResult)
  {
    r.err.Some? <==> r.verdict.kind == Error
  }

  function One<T>(b: bool, x: T): multiset<T>
  {
    if b then multiset{x} else multiset{}
  }

  lemma {:induction false} SelectLast<T>(rs: seq<T>, p: T -> bool)
    requires rs != []
    ensures multiset(Select(rs, p)) == multiset(Select(rs[..|rs| - 1], p)) + One(p(rs[|rs| - 1]), rs[|rs| - 1])
  {
  }

  lemma {:induction false} SelectedHold<T>(rs: seq<T>, p: T -> bool)
    ensures forall x :: x in Select(rs, p) ==> p(x)
  {
    if rs != [] {
      SelectedHold(rs[..|rs| - 1], p);
    }
  }

  predicate ExactlyOne(p: bool, q: bool, r: bool)
  {
    (p && !q && !r) || (!p && q && !r) || (!p && !q && r)
  }

  lemma OneMore<T>(a: multiset<T>, b: multiset<T>, c: multiset<T>, x: T, p: bool, q: bool, r: bool)
    requires ExactlyOne(p, q, r)
    ensures a + b + c + multiset{x} == (a + One(p, x)) + (b + One(q, x)) + (c + One(r, x))
  {
  }

  lemma {:induction false} PartitionConserves<T>(rs: seq<T>, p: T -> bool, q: T -> bool, r: T -> bool)
    requires forall i :: 0 <= i < |rs| ==> ExactlyOne(p(rs[i]), q(rs[i]), r(rs[i]))
    ensures multiset(rs) == multiset(Select(rs, p)) + multiset(Select(rs, q)) + multiset(Select(rs, r))
  {
    if rs != [] {
      var front, last := rs[..|rs| - 1], rs[|rs| - 1];
      PartitionConserves(front, p, q, r);
      assert rs == front + [last];
      SelectLast(rs, p);
      SelectLast(rs, q);
      SelectLast(rs, r);
      OneMore(multiset(Select(front, p)), multiset(Select(front, q)), multiset(Select(front, r)), last, p(last), q(last), r(last));
    }
  }

  lemma {:induction false} GoodConserves(rs: seq<BlockResult>)
    ensures multiset(Select(rs, IsGood))
         == multiset(Select(rs, IsPass)) + multiset(Select(rs, IsFailure)) + multiset(Select(rs, IsUnverified))
  {
    if rs != [] {
      var front, last := rs[..|rs| - 1], rs[|rs| - 1];
      GoodConserves(front);
      SelectLast(rs, IsGood);
      SelectLast(rs, IsPass);
      SelectLast(rs, IsFailure);
      SelectLast(rs, IsUnverified);
      if IsGood(last) {
        OneMore(multiset(Select(front, IsPass)), multiset(Select(front, IsFailure)), multiset(Select(front, IsUnverified)),
                last, IsPass(last), IsFailure(last), IsUnverified(last));
      }
    }
  }

  /** Every result is in exactly one bucket and none is lost: good, skipped or errored. */
  lemma {:induction false} BucketsConserve(rs: seq<BlockResult>)
    requires forall i :: 0 <= i < |rs| ==> Accounted(rs[i])
    ensures multiset(rs)
         == multiset(Select(rs, IsGood)) + multiset(Select(rs, IsSkipped)) + multiset(Select(rs, IsErrored))
    ensures multiset(Select(rs, IsGood))
         == multiset(Select(rs, IsPass))
          + multiset(Select(rs, IsFailure)) + multiset(Select(rs, IsUnverified))
    ensures forall r :: r in Select(rs, IsFailure) ==> r.verdict.kind == Fail
    ensures forall r :: r in Select(rs, IsUnverified) ==> r.verdict.kind == Unverified
  {
    GoodConserves(rs);
    SelectedHold(rs, IsFailure);
    SelectedHold(rs, IsUnverified);
    forall i | 0 <= i < |rs|
      ensures ExactlyOne(IsGood(rs[i]), IsSkipped(rs[i]), IsErrored(rs[i]))
    {
      assert Accounted(rs[i]);
    }
    PartitionConserves(rs, IsGood, IsSkipped, IsErrored);
  }
}
