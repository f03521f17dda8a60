/**
 * The two fork resolvers, `activeProtocolFork` of fixtures and `ActiveProtocolFork` of genesis
 * files: which ProtocolFork index goes into the schema id of a block.
 */
module Forks {
  import opened Bytes

  const SHANGHAI: byte := 0x0F
  const CANCUN: byte := 0x10
  const PRAGUE: byte := 0x11
  const OSAKA: byte := 0x12
  const BPO1: byte := 0x13
  const BPO2: byte := 0x14
  const AMSTERDAM: byte := 0x15

  /** A fork and, where the configuration names it, its activation time. */
  datatype ForkTime = ForkTime(fork: byte, time: Option<u64>)

  predicate ActiveAt(f: ForkTime, t: u64)
  {
    f.time.Some? && f.time.value <= t
  }

  predicate NoneActive(fs: seq<ForkTime>, t: u64)
  {
    forall i :: 0 <= i < |fs| ==> !ActiveAt(fs[i], t)
  }

  /** `fork` is active and no fork of a higher index is: what both resolvers look for. */
  predicate IsHighestActive(fs: seq<ForkTime>, t: u64, fork: byte)
  {
    && (exists i :: 0 <= i < |fs| && fs[i].fork == fork && ActiveAt(fs[i], t))
    && (forall i :: 0 <= i < |fs| && ActiveAt(fs[i], t) ==> fs[i].fork <= fork)
  }

  // ---- Fixtures ----

  datatype FixtureChainConfig = FixtureChainConfig(
    chainId: u64, shanghai: Option<u64>, cancun: Option<u64>, prague: Option<u64>, osaka: Option<u64>,
    bpo1: Option<u64>, bpo2: Option<u64>, amsterdam: Option<u64>)

  /** The forks a genesis file can also name, oldest first. */
  function CancunOnward(cc: FixtureChainConfig): (fs: seq<ForkTime>)
    ensures |fs| == 6
  {
    [ForkTime(CANCUN, cc.cancun), ForkTime(PRAGUE, cc.prague), ForkTime(OSAKA, cc.osaka),
     ForkTime(BPO1, cc.bpo1), ForkTime(BPO2, cc.bpo2), ForkTime(AMSTERDAM, cc.amsterdam)]
  }

  function FixtureForks(cc: FixtureChainConfig): (fs: seq<ForkTime>)
    ensures |fs| == 7
  {
    [ForkTime(SHANGHAI, cc.shanghai)] + CancunOnward(cc)
  }

  /** The last active entry, or `fallback`. */
  function LastActive(fs: seq<ForkTime>, t: u64, fallback: byte): byte
  {
    if fs == [] then fallback
    else if ActiveAt(fs[|fs| - 1], t) then fs[|fs| - 1].fork
    else LastActive(fs[..|fs| - 1], t, fallback)
  }

  function FixtureFork(cc: Option<FixtureChainConfig>, t: u64): byte
  {
    if cc.None? then AMSTERDAM else LastActive(FixtureForks(cc.value), t, AMSTERDAM)
  }

  /** `activeProtocolFork`: walks the fixed table newest to oldest. */
  method ActiveProtocolFork(cc: Option<FixtureChainConfig>, t: u64) returns (fork: byte)
    ensures fork == FixtureFork(cc, t)
  {
    if cc.None? {
      return AMSTERDAM;
    }
    var c := cc.value;
    var table := [ForkTime(AMSTERDAM, c.amsterdam), ForkTime(BPO2, c.bpo2), ForkTime(BPO1, c.bpo1),
                  ForkTime(OSAKA, c.osaka), ForkTime(PRAGUE, c.prague), ForkTime(CANCUN, c.cancun),
                  ForkTime(SHANGHAI, c.shanghai)];
    ghost var forks := FixtureForks(c);
    assert forall i :: 0 <= i < 7 ==> table[i] == forks[6 - i];
    assert forks[..7] == forks;
    for i := 0 to 7
      invariant LastActive(forks, t, AMSTERDAM) == LastActive(forks[..7 - i], t, AMSTERDAM)
    {
      if table[i].time.Some? && t >= table[i].time.value {
        return table[i].fork;
      }
      assert forks[..7 - i][..6 - i] == forks[..6 - i];
    }
    return AMSTERDAM;
  }

  // ---- Genesis files ----

  datatype GenesisFork = GenesisFork(enumVal: byte, activationTime: u64)

  datatype GenesisChainConfig = GenesisChainConfig(chainId: u64, activeForks: seq<GenesisFork>)

  /** `forkDefs`: genesis config key and ProtocolFork index, oldest to newest. */
  const FORK_DEFS: seq<(string, byte)> :=
    [("cancunTime", CANCUN), ("pragueTime", PRAGUE), ("osakaTime", OSAKA),
     ("bpo1Time", BPO1), ("bpo2Time", BPO2), ("amsterdamTime", AMSTERDAM)]

  /** A genesis `config` object: None is a field that is not a plain uint64. */
  type ConfigFields = map<string, Option<u64>>

  function Field(config: ConfigFields, name: string): Option<u64>
  {
    if name in config then config[name] else None
  }

  /** The forks the file names, as a fixture would list them. */
  function NamedForks(config: ConfigFields, n: nat): (fs: seq<ForkTime>)
    requires n <= |FORK_DEFS|
    ensures |fs| == n
  {
    seq(n, i requires 0 <= i < n => ForkTime(FORK_DEFS[i].1, Field(config, FORK_DEFS[i].0)))
  }

  /** The entries that do have a time. */
  function Timed(fs: seq<ForkTime>): seq<GenesisFork>
  {
    if fs == [] then []
    else Timed(fs[..|fs| - 1]) +
         (if fs[|fs| - 1].time.Some? then [GenesisFork(fs[|fs| - 1].fork, fs[|fs| - 1].time.value)] else [])
  }

  function ChainIdOf(config: ConfigFields): u64
  {
    if Field(config, "chainId").Some? then Field(config, "chainId").value else 0
  }

  /** What a genesis file says: its named forks, or an error if it names none. */
  function GenesisOf(config: ConfigFields): Option<GenesisChainConfig>
  {
    var forks := Timed(NamedForks(config, |FORK_DEFS|));
    if forks == [] then None else Some(GenesisChainConfig(ChainIdOf(config), forks))
  }

  /** `ParseGenesisFile`, after the JSON was decoded; None is its error. */
  method ParseGenesis(config: ConfigFields) returns (g: Option<GenesisChainConfig>)
    ensures g == GenesisOf(config)
  {
    var chainId: u64 := 0;
    if "chainId" in config && config["chainId"].Some? {
      chainId := config["chainId"].value;
    }
    var active: seq<GenesisFork> := [];
    for i := 0 to |FORK_DEFS|
      invariant active == Timed(NamedForks(config, i))
    {
      var fd := FORK_DEFS[i];
      assert NamedForks(config, i + 1)[..i] == NamedForks(config, i);
      if fd.0 !in config {
        continue;
      }
      var raw := config[fd.0];
      if raw.None? {
        continue;
      }
      active := active + [GenesisFork(fd.1, raw.value)];
    }
    if |active| == 0 {
      return None;
    }
    return Some(GenesisChainConfig(chainId, active));
  }

  function GenesisForkAt(forks: seq<GenesisFork>, t: u64): byte
  {
    if forks == [] then 0
    else if forks[|forks| - 1].activationTime <= t then forks[|forks| - 1].enumVal
    else GenesisForkAt(forks[..|forks| - 1], t)
  }

  /** `(*GenesisChainConfig).ActiveProtocolFork`: scans backwards; 0 when no fork is active yet. */
  method GenesisActiveFork(g: GenesisChainConfig, t: u64) returns (fork: byte)
    ensures fork == GenesisForkAt(g.activeForks, t)
  {
    var i := |g.activeForks| - 1;
    assert g.activeForks[..i + 1] == g.activeForks;
    while i >= 0
      invariant -1 <= i < |g.activeForks|
      invariant GenesisForkAt(g.activeForks, t) == GenesisForkAt(g.activeForks[..i + 1], t)
    {
      if t >= g.activeForks[i].activationTime {
        return g.activeForks[i].enumVal;
      }
      assert g.activeForks[..i + 1][..i] == g.activeForks[..i];
      i := i - 1;
    }
    return 0;
  }

  /** The live encoder's default: 0 stands for Amsterdam. */
  function OrAmsterdam(fork: byte): byte
  {
    if fork == 0 then AMSTERDAM else fork
  }

  // ---- What the resolvers find ----

  predicate OldestFirst(fs: seq<ForkTime>)
  {
    forall i, j :: 0 <= i < j < |fs| ==> fs[i].fork < fs[j].fork
  }

  lemma {:induction false} LastActiveIsHighest(fs: seq<ForkTime>, t: u64, fallback: byte)
    requires OldestFirst(fs)
    ensures if NoneActive(fs, t) then LastActive(fs, t, fallback) == fallback
            else IsHighestActive(fs, t, LastActive(fs, t, fallback))
  {
    if fs != [] {
      var front := fs[..|fs| - 1];
      LastActiveIsHighest(front, t, fallback);
      if !ActiveAt(fs[|fs| - 1], t) && !NoneActive(front, t) {
        var i :| 0 <= i < |front| && front[i].fork == LastActive(front, t, fallback) && ActiveAt(front[i], t);
        assert fs[i] == front[i];
      }
    }
  }

  /** Skipping the forks without a time does not change which one is found. */
  lemma {:induction false} GenesisFindsLastActive(fs: seq<ForkTime>, t: u64)
    ensures GenesisForkAt(Timed(fs), t) == LastActive(fs, t, 0)
  {
    if fs != [] {
      var front, last := fs[..|fs| - 1], fs[|fs| - 1];
      GenesisFindsLastActive(front, t);
      if last.time.Some? {
        assert Timed(fs)[..|Timed(fs)| - 1] == Timed(front);
      } else {
        assert Timed(fs) == Timed(front);
      }
    }
  }

  /** Both resolvers return the highest-index active fork, whatever the activation times are. */
  lemma {:induction false} ResolversFindHighest(cc: FixtureChainConfig, t: u64)
    ensures if NoneActive(FixtureForks(cc), t) then FixtureFork(Some(cc), t) == AMSTERDAM
            else IsHighestActive(FixtureForks(cc), t, FixtureFork(Some(cc), t))
    ensures if NoneActive(CancunOnward(cc), t) then GenesisForkAt(Timed(CancunOnward(cc)), t) == 0
            else IsHighestActive(CancunOnward(cc), t, GenesisForkAt(Timed(CancunOnward(cc)), t))
  {
    LastActiveIsHighest(FixtureForks(cc), t, AMSTERDAM);
    LastActiveIsHighest(CancunOnward(cc), t, 0);
    GenesisFindsLastActive(CancunOnward(cc), t);
  }

  /** The one case the resolvers treat differently: genesis files cannot name Shanghai. */
  predicate OnlyShanghaiActive(cc: FixtureChainConfig, t: u64)
  {
    ActiveAt(ForkTime(SHANGHAI, cc.shanghai), t) && NoneActive(CancunOnward(cc), t)
  }

  lemma {:induction false} FallbackOnlyWhenNone(fs: seq<ForkTime>, t: u64, a: byte, b: byte)
    ensures NoneActive(fs, t) ==> LastActive(fs, t, a) == a
    ensures !NoneActive(fs, t) ==> LastActive(fs, t, a) == LastActive(fs, t, b)
  {
    if fs != [] {
      var front := fs[..|fs| - 1];
      FallbackOnlyWhenNone(front, t, a, b);
      if !ActiveAt(fs[|fs| - 1], t) && !NoneActive(fs, t) {
        var i :| 0 <= i < |fs| && ActiveAt(fs[i], t);
        assert front[i] == fs[i];
      }
    }
  }

  /** With the same times, the two resolvers agree exactly when Shanghai is not the newest active fork. */
  lemma {:induction false} ResolversAgreeIff(cc: FixtureChainConfig, t: u64)
    ensures OrAmsterdam(GenesisForkAt(Timed(CancunOnward(cc)), t)) == FixtureFork(Some(cc), t)
       <==> !OnlyShanghaiActive(cc, t)
  {
    var later, all := CancunOnward(cc), FixtureForks(cc);
    GenesisFindsLastActive(later, t);
    SplitFirst(all, t, AMSTERDAM);
    assert all[1..] == later;
    FallbackOnlyWhenNone(later, t, 0, SHANGHAI);
    FallbackOnlyWhenNone(later, t, AMSTERDAM, SHANGHAI);
    FallbackOnlyWhenNone(later, t, SHANGHAI, 0);
    LastActiveIsHighest(later, t, 0);
  }

  lemma {:induction false} SplitFirst(fs: seq<ForkTime>, t: u64, fallback: byte)
    requires fs != []
    ensures LastActive(fs, t, fallback)
         == LastActive(fs[1..], t, if ActiveAt(fs[0], t) then fs[0].fork else fallback)
  {
    if |fs| > 1 {
      SplitFirst(fs[..|fs| - 1], t, fallback);
      assert fs[1..][..|fs| - 2] == fs[..|fs| - 1][1..];
    }
  }

  lemma {:induction false} LastActiveMonotoneIff(fs: seq<ForkTime>, t: u64, u: u64)
    requires t <= u && OldestFirst(fs) && fs != [] && fs[|fs| - 1].fork == AMSTERDAM
    ensures LastActive(fs, t, AMSTERDAM) <= LastActive(fs, u, AMSTERDAM)
       <==> !NoneActive(fs, t) || NoneActive(fs, u) || ActiveAt(fs[|fs| - 1], u)
  {
    LastActiveIsHighest(fs, t, AMSTERDAM);
    LastActiveIsHighest(fs, u, AMSTERDAM);
    if !NoneActive(fs, t) {
      var i :| 0 <= i < |fs| && fs[i].fork == LastActive(fs, t, AMSTERDAM) && ActiveAt(fs[i], t);
      assert ActiveAt(fs[i], u);
    }
  }

  /**
   * As time passes the resolved fork never goes back, except once: while nothing is active the
   * fallback is the newest fork, and the first activation of an older fork lowers it.
   */
  lemma {:induction false} MonotoneIff(cc: FixtureChainConfig, t: u64, u: u64)
    requires t <= u
    ensures FixtureFork(Some(cc), t) <= FixtureFork(Some(cc), u)
       <==> !NoneActive(FixtureForks(cc), t) || NoneActive(FixtureForks(cc), u)
            || ActiveAt(ForkTime(AMSTERDAM, cc.amsterdam), u)
  {
    LastActiveMonotoneIff(FixtureForks(cc), t, u);
  }

  /** The fork a live block is encoded under: the genesis resolver with the encoder's default. */
  function LiveForkAt(g: GenesisChainConfig, t: u64): byte
  {
    OrAmsterdam(GenesisForkAt(g.activeForks, t))
  }

  lemma {:induction false} LiveForkIsLastActive(fs: seq<ForkTime>, t: u64)
    requires forall i :: 0 <= i < |fs| ==> fs[i].fork > 0
    ensures OrAmsterdam(GenesisForkAt(Timed(fs), t)) == LastActive(fs, t, AMSTERDAM)
  {
    GenesisFindsLastActive(fs, t);
    if fs != [] && !ActiveAt(fs[|fs| - 1], t) {
      var front := fs[..|fs| - 1];
      LiveForkIsLastActive(front, t);
      GenesisFindsLastActive(front, t);
    }
  }

  /** The same law for live blocks, whatever genesis file they come with. */
  lemma {:induction false} GenesisMonotoneIff(config: ConfigFields, t: u64, u: u64)
    requires t <= u && GenesisOf(config).Some?
    ensures var g, fs := GenesisOf(config).value, NamedForks(config, |FORK_DEFS|);
            LiveForkAt(g, t) <= LiveForkAt(g, u) <==>
            || !NoneActive(fs, t) || NoneActive(fs, u)
            || ActiveAt(ForkTime(AMSTERDAM, Field(config, "amsterdamTime")), u)
  {
    var fs := NamedForks(config, |FORK_DEFS|);
    LiveForkIsLastActive(fs, t);
    LiveForkIsLastActive(fs, u);
    LastActiveMonotoneIff(fs, t, u);
  }

  /** A chain whose only configured fork is Cancun at time 100: the fork drops when it activates. */
  lemma FallbackCanDrop()
    ensures exists cc: FixtureChainConfig :: FixtureFork(Some(cc), 99) > FixtureFork(Some(cc), 100)
  {
    var cc := FixtureChainConfig(1, None, Some(100), None, None, None, None, None);
    MonotoneIff(cc, 99, 100);
    assert ActiveAt(FixtureForks(cc)[1], 100);
    assert FixtureFork(Some(cc), 99) > FixtureFork(Some(cc), 100);
  }

  /** The same on the live side: a genesis file with Cancun at 100 only. */
  lemma {:induction false} LiveFallbackCanDrop()
    ensures var g := GenesisOf(map["cancunTime" := Some(100)]);
            g.Some? && LiveForkAt(g.value, 99) > LiveForkAt(g.value, 100)
  {
    var config: ConfigFields := map["cancunTime" := Some(100)];
    var fs := NamedForks(config, |FORK_DEFS|);
    assert ActiveAt(fs[0], 100) && NoneActive(fs, 99);
    TimedNone(fs);
    GenesisMonotoneIff(config, 99, 100);
  }

  /** `DefaultMainnetChainConfig`: what a live run without a genesis file uses. */
  const MAINNET_CANCUN: u64 := 1710338135
  const MAINNET := GenesisChainConfig(1,
    [GenesisFork(CANCUN, MAINNET_CANCUN), GenesisFork(PRAGUE, 1746612311), GenesisFork(OSAKA, 1764798551),
     GenesisFork(BPO1, 1765290071), GenesisFork(BPO2, 1767747671)])

  /** It names no Amsterdam, so the default shows only before Cancun. */
  lemma {:induction false} MainnetIsAmsterdamIff(t: u64)
    ensures LiveForkAt(MAINNET, t) == AMSTERDAM <==> t < MAINNET_CANCUN
  {
    var forks := MAINNET.activeForks;
    NewestTimed(forks, t);
    assert forks[0].activationTime == MAINNET_CANCUN;
    assert forall i :: 0 <= i < 5 ==> MAINNET_CANCUN <= forks[i].activationTime && 0 < forks[i].enumVal < AMSTERDAM;
  }

  lemma {:induction false} NewestTimed(forks: seq<GenesisFork>, t: u64)
    ensures if forall i :: 0 <= i < |forks| ==> t < forks[i].activationTime then GenesisForkAt(forks, t) == 0
            else exists i :: 0 <= i < |forks| && forks[i].enumVal == GenesisForkAt(forks, t)
  {
    if forks != [] && forks[|forks| - 1].activationTime > t {
      var front := forks[..|forks| - 1];
      NewestTimed(front, t);
      if i :| 0 <= i < |front| && front[i].enumVal == GenesisForkAt(front, t) {
        assert forks[i] == front[i];
      }
    }
  }

  /** A genesis file that describes the chain of a fixture, Shanghai apart. */
  predicate Describes(config: ConfigFields, cc: FixtureChainConfig)
  {
    && Field(config, "cancunTime") == cc.cancun && Field(config, "pragueTime") == cc.prague
    && Field(config, "osakaTime") == cc.osaka && Field(config, "bpo1Time") == cc.bpo1
    && Field(config, "bpo2Time") == cc.bpo2 && Field(config, "amsterdamTime") == cc.amsterdam
    && ChainIdOf(config) == cc.chainId
  }

  lemma {:induction false} TimedHas(fs: seq<ForkTime>, fork: byte, t: u64)
    ensures GenesisFork(fork, t) in Timed(fs) <==> ForkTime(fork, Some(t)) in fs
  {
    if fs != [] {
      TimedHas(fs[..|fs| - 1], fork, t);
      assert fs == fs[..|fs| - 1] + [fs[|fs| - 1]];
    }
  }

  /** The keys of a genesis file and their fork numbers: what a file that parses says, and nothing else. */
  lemma {:induction false} GenesisKeys(config: ConfigFields, fork: byte, t: u64)
    ensures GenesisOf(config).Some? <==>
            || Field(config, "cancunTime").Some? || Field(config, "pragueTime").Some? || Field(config, "osakaTime").Some?
            || Field(config, "bpo1Time").Some? || Field(config, "bpo2Time").Some? || Field(config, "amsterdamTime").Some?
    ensures GenesisOf(config).Some? ==>
              (GenesisFork(fork, t) in GenesisOf(config).value.activeForks <==>
               || (fork == 0x10 && Field(config, "cancunTime") == Some(t))
               || (fork == 0x11 && Field(config, "pragueTime") == Some(t))
               || (fork == 0x12 && Field(config, "osakaTime") == Some(t))
               || (fork == 0x13 && Field(config, "bpo1Time") == Some(t))
               || (fork == 0x14 && Field(config, "bpo2Time") == Some(t))
               || (fork == 0x15 && Field(config, "amsterdamTime") == Some(t)))
  {
    var fs := NamedForks(config, |FORK_DEFS|);
    TimedHas(fs, fork, t);
    TimedNone(fs);
    NamedForksByKey(config);
    assert fs[0].time == Field(config, "cancunTime") && fs[1].time == Field(config, "pragueTime");
    assert fs[2].time == Field(config, "osakaTime") && fs[3].time == Field(config, "bpo1Time");
    assert fs[4].time == Field(config, "bpo2Time") && fs[5].time == Field(config, "amsterdamTime");
  }

  lemma {:induction false} NamedForksByKey(config: ConfigFields)
    ensures NamedForks(config, |FORK_DEFS|)
         == [ForkTime(0x10, Field(config, "cancunTime")), ForkTime(0x11, Field(config, "pragueTime")),
             ForkTime(0x12, Field(config, "osakaTime")), ForkTime(0x13, Field(config, "bpo1Time")),
             ForkTime(0x14, Field(config, "bpo2Time")), ForkTime(0x15, Field(config, "amsterdamTime"))]
  {
  }

  /** The newest of the given times that has come, by fork number. */
  function NewestOf(t: u64, cancun: Option<u64>, prague: Option<u64>, osaka: Option<u64>, bpo1: Option<u64>,
                    bpo2: Option<u64>, amsterdam: Option<u64>, otherwise: byte): byte
  {
    if amsterdam.Some? && t >= amsterdam.value then 0x15
    else if bpo2.Some? && t >= bpo2.value then 0x14
    else if bpo1.Some? && t >= bpo1.value then 0x13
    else if osaka.Some? && t >= osaka.value then 0x12
    else if prague.Some? && t >= prague.value then 0x11
    else if cancun.Some? && t >= cancun.value then 0x10
    else otherwise
  }

  lemma {:induction false} LastOfSix(fs: seq<ForkTime>, t: u64, fallback: byte)
    requires |fs| == 6 && forall i :: 0 <= i < 6 ==> fs[i].fork == 0x10 + i
    ensures LastActive(fs, t, fallback)
         == NewestOf(t, fs[0].time, fs[1].time, fs[2].time, fs[3].time, fs[4].time, fs[5].time, fallback)
  {
    LastActiveIsHighest(fs, t, fallback);
    FallbackOnlyWhenNone(fs, t, fallback, fallback);
  }

  /** The fork of a live block and of a fixture, by the names in their files and the numbers of the guest. */
  lemma {:induction false} ForksByName(config: ConfigFields, cc: FixtureChainConfig, t: u64)
    ensures GenesisOf(config).Some? ==>
              LiveForkAt(GenesisOf(config).value, t) ==
              NewestOf(t, Field(config, "cancunTime"), Field(config, "pragueTime"), Field(config, "osakaTime"),
                       Field(config, "bpo1Time"), Field(config, "bpo2Time"), Field(config, "amsterdamTime"), 0x15)
    ensures FixtureFork(Some(cc), t)
         == NewestOf(t, cc.cancun, cc.prague, cc.osaka, cc.bpo1, cc.bpo2, cc.amsterdam,
                     if cc.shanghai.Some? && t >= cc.shanghai.value then 0x0F else 0x15)
    ensures FixtureFork(None, t) == 0x15
  {
    var fs := NamedForks(config, |FORK_DEFS|);
    NamedForksByKey(config);
    LiveForkIsLastActive(fs, t);
    LastOfSix(fs, t, AMSTERDAM);
    SplitFirst(FixtureForks(cc), t, AMSTERDAM);
    assert FixtureForks(cc)[1..] == CancunOnward(cc);
    LastOfSix(CancunOnward(cc), t, if ActiveAt(ForkTime(SHANGHAI, cc.shanghai), t) then SHANGHAI else AMSTERDAM);
  }

  /** The built-in mainnet schedule, by fork number. */
  lemma {:induction false} MainnetSchedule(t: u64)
    ensures GenesisForkAt(MAINNET.activeForks, t)
         == NewestOf(t, Some(1710338135), Some(1746612311), Some(1764798551), Some(1765290071), Some(1767747671), None, 0)
    ensures MAINNET.chainId == 1
  {
    var fs := [ForkTime(0x10, Some(1710338135)), ForkTime(0x11, Some(1746612311)), ForkTime(0x12, Some(1764798551)),
               ForkTime(0x13, Some(1765290071)), ForkTime(0x14, Some(1767747671)), ForkTime(0x15, None)];
    LastOfSix(fs, t, 0);
    GenesisFindsLastActive(fs, t);
    MainnetTimes(fs);
  }

  lemma {:induction false} MainnetTimes(fs: seq<ForkTime>)
    requires fs == [ForkTime(0x10, Some(1710338135)), ForkTime(0x11, Some(1746612311)), ForkTime(0x12, Some(1764798551)),
                    ForkTime(0x13, Some(1765290071)), ForkTime(0x14, Some(1767747671)), ForkTime(0x15, None)]
    ensures Timed(fs) == MAINNET.activeForks
  {
    assert Timed(fs[..0]) == [];
    assert fs[..1][..0] == fs[..0] && fs[..2][..1] == fs[..1] && fs[..3][..2] == fs[..2];
    assert fs[..4][..3] == fs[..3] && fs[..5][..4] == fs[..4] && fs[..6][..5] == fs[..5] && fs[..6] == fs;
    assert Timed(fs[..2]) == MAINNET.activeForks[..2];
    assert Timed(fs[..4]) == MAINNET.activeForks[..4];
    assert Timed(fs[..5]) == MAINNET.activeForks;
  }

  /** Such a file parses unless the fixture has no fork from Cancun on, and then to the fixture's forks. */
  lemma {:induction false} GenesisOfFixture(cc: FixtureChainConfig, config: ConfigFields)
    requires Describes(config, cc)
    ensures GenesisOf(config).Some? <==> exists i :: 0 <= i < 6 && CancunOnward(cc)[i].time.Some?
    ensures GenesisOf(config).Some? ==>
              GenesisOf(config).value == GenesisChainConfig(cc.chainId, Timed(CancunOnward(cc)))
  {
    var fs := CancunOnward(cc);
    assert NamedForks(config, |FORK_DEFS|) == fs;
    TimedNone(fs);
  }

  lemma {:induction false} TimedNone(fs: seq<ForkTime>)
    ensures Timed(fs) == [] <==> forall i :: 0 <= i < |fs| ==> fs[i].time.None?
  {
    if fs != [] {
      TimedNone(fs[..|fs| - 1]);
    }
  }
}
