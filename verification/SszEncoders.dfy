/**
 * The two implementations of the guest input: `fixture/encode_ssz.go` builds it from a fixture,
 * `fixture/encode_ssz_live.go` from a decoded block. Both are compared with the same format.
 */
module SszEncoders {
  import opened Bytes
  import opened SszContainer
  import opened SszLists
  import opened SszRequests
  import opened SszUint
  import opened SszPayload
  import opened SszInput
  import opened SszLayout
  import opened Forks
  import Framing

  // ---- Parts both share ----

  function OrZero(v: Option<u64>): u64
  {
    if v.Some? then v.value else 0
  }

  predicate Marshals(txs: seq<Tx>)
  {
    forall i :: 0 <= i < |txs| ==> txs[i].envelope.Some?
  }

  function Envelopes(txs: seq<Tx>): (raw: seq<Bytes>)
    requires Marshals(txs)
    ensures |raw| == |txs|
  {
    seq(|txs|, i requires 0 <= i < |txs| => txs[i].envelope.value)
  }

  /** The `MarshalBinary` loop: stops at the first transaction that fails. */
  method MarshalAll(txs: seq<Tx>) returns (r: Option<seq<Bytes>>)
    ensures r.Some? <==> Marshals(txs)
    ensures r.Some? ==> r.value == Envelopes(txs)
    ensures r.Some? ==> |r.value| == |txs| && forall i :: 0 <= i < |txs| ==> txs[i].envelope == Some(r.value[i])
  {
    var raw := new Bytes[|txs|];
    for i := 0 to |txs|
      invariant Marshals(txs[..i])
      invariant forall k :: 0 <= k < i ==> raw[k] == txs[k].envelope.value
    {
      if txs[i].envelope.None? {
        return None;
      }
      raw[i] := txs[i].envelope.value;
    }
    return Some(raw[..]);
  }

  /** `schemaIDFor`: the fork index in the high byte, the revision in the low one. */
  function SchemaId(fork: byte): (id: nat)
    ensures id < 0x1_0000
  {
    fork * 256 + SCHEMA_REVISION
  }

  lemma SchemaIdBytes(fork: byte)
    ensures BE(2, SchemaId(fork)) == [fork, SCHEMA_REVISION]
  {
    assert SchemaId(fork) / 256 == fork && SchemaId(fork) % 256 == SCHEMA_REVISION;
    assert BE(1, fork) == BE(0, 0) + [fork];
  }

  /** `encodeStatelessInputContainer`. */
  method EncodeStatelessInputContainer(npr: Bytes, wit: Bytes, chainId: u64, fork: byte) returns (out: Bytes)
    ensures out == [fork, SCHEMA_REVISION] + Serialize(Var(npr, Var(wit, Fixed(Le64(chainId), End))))
  {
    var offNPR := Wrap32(16);
    var offWitness := Wrap32(offNPR + Wrap32(|npr|));
    out := BE(2, SchemaId(fork));
    out := out + Le32(offNPR);
    out := out + Le32(offWitness);
    out := out + Le64(chainId);
    out := out + npr;
    out := out + wit;
    SchemaIdBytes(fork);
    assert Le32(offWitness) == Le32(16 + |npr|) by {
      WrapAdd(16, |npr|);
      WrapIsInvisible(16 + |npr|);
    }
    InputWritten([fork, SCHEMA_REVISION], npr, wit, Le64(chainId));
  }

  lemma {:induction false} InputWritten(s: Bytes, npr: Bytes, wit: Bytes, chain: Bytes)
    requires |chain| == 8
    ensures s + Le32(16) + Le32(16 + |npr|) + chain + npr + wit == s + Serialize(Var(npr, Var(wit, Fixed(chain, End))))
  {
    InputLayout(npr, wit, chain);
    Regroup(s, Le32(16), Le32(16 + |npr|), chain, npr, wit);
  }

  lemma Regroup(s: Bytes, a: Bytes, b: Bytes, c: Bytes, x: Bytes, y: Bytes)
    ensures s + a + b + c + x + y == s + (a + (b + c) + (x + y))
  {
  }

  /** `encodeExecutionWitnessFromArrays`, and the tail of `encodeSszExecutionWitness`. */
  method EncodeExecutionWitness(w: Witness) returns (r: Bytes)
    ensures r == WitnessBytes(w)
  {
    var state := EncodeByteListList(w.state);
    var codes := EncodeByteListList(w.codes);
    var headers := EncodeByteListList(w.headers);
    var fix := Le32(Wrap32(12));
    fix := fix + Le32(Wrap32(12 + |state|));
    fix := fix + Le32(Wrap32(12 + |state| + |codes|));
    r := fix + (state + (codes + headers));
    WrapIsInvisible(12 + |state|);
    WrapIsInvisible(12 + |state| + |codes|);
    WitnessLayout(state, codes, headers);
    assert fix == Le32(12) + (Le32(12 + |state|) + Le32(12 + |state| + |codes|));
  }

  /** The SszNewPayloadRequest container around encoded sections. */
  method EncodeRequestContainer(ep: Bytes, vh: Bytes, root: Bytes32, er: Bytes) returns (r: Bytes)
    ensures r == Serialize(Var(ep, Var(vh, Fixed(root, Var(er, End)))))
  {
    var fix := Le32(Wrap32(44));
    fix := fix + Le32(Wrap32(44 + |ep|));
    fix := fix + root;
    fix := fix + Le32(Wrap32(44 + |ep| + |vh|));
    r := fix + (ep + (vh + er));
    WrapIsInvisible(44 + |ep|);
    WrapIsInvisible(44 + |ep| + |vh|);
    RequestLayout(ep, vh, root, er);
    assert fix == Le32(44) + (Le32(44 + |ep|) + (root + Le32(44 + |ep| + |vh|)));
  }

  // ---- The live path ----

  /** A go-ethereum header; `other` stands for the fields only its hash depends on. */
  datatype Header = Header(
    parentHash: Bytes32, coinbase: Bytes20, root: Bytes32, receiptHash: Bytes32, bloom: Bytes256,
    mixDigest: Bytes32, number: nat, gasLimit: u64, gasUsed: u64, time: u64, extra: Bytes,
    baseFee: Option<int>, blobGasUsed: Option<u64>, excessBlobGas: Option<u64>, slotNumber: Option<u64>,
    beaconRoot: Option<Bytes32>, other: Bytes)

  datatype Block = Block(header: Header, txs: seq<Tx>, withdrawals: seq<Withdrawal>)

  function LivePayload(hash: Header -> Bytes32, b: Block, bal: Bytes): ExecutionPayload
    requires Marshals(b.txs) && FeeInRange(b.header.baseFee)
  {
    var h := b.header;
    ExecutionPayload(
      h.parentHash, h.coinbase, h.root, h.receiptHash, h.bloom, h.mixDigest,
      h.number % TWO64, h.gasLimit, h.gasUsed, h.time, h.extra, FeeValue(h.baseFee), hash(h),
      Envelopes(b.txs), b.withdrawals, OrZero(h.blobGasUsed), OrZero(h.excessBlobGas), bal, OrZero(h.slotNumber))
  }

  /** An optional number of the header: absent is written as 0. */
  function Optional(v: Option<u64>): Bytes
  {
    match v
    case Some(x) => Le64(x)
    case None => Le64(0)
  }

  function Fee(fee: Option<int>): Bytes
  {
    match fee
    case Some(n) => if n > 0 then Le256(n) else Le256(0)
    case None => Le256(0)
  }

  /** The payload of a live block: all nineteen fields, from header and body, where the format has them. */
  function LivePlaces(hash: Header -> Bytes32, block: Block, bal: Bytes): Places
    requires Marshals(block.txs)
  {
    var h := block.header;
    PayloadTable(
      h.parentHash, h.coinbase, h.root, h.receiptHash, h.bloom, h.mixDigest,
      Le64(h.number), Le64(h.gasLimit), Le64(h.gasUsed), Le64(h.time),
      BackTable(h.extra, Fee(h.baseFee), hash(h), ListBytes(Envelopes(block.txs)), WithdrawalsBytes(block.withdrawals),
                Optional(h.blobGasUsed), Optional(h.excessBlobGas), bal, Optional(h.slotNumber)))
  }

  lemma {:induction false} LowWord(n: nat)
    ensures Le64(n % TWO64) == Le64(n)
  {
    Pow256Widths();
    LEPeriodic(W64.bytes, n % TWO64, n / TWO64);
  }

  lemma {:induction false} LiveStands(b: Bytes, k: nat, hash: Header -> Bytes32, block: Block, bal: Bytes)
    requires Marshals(block.txs) && FeeInRange(block.header.baseFee)
    requires At(b, k, PayloadBytes(LivePayload(hash, block, bal)))
    ensures Stands(b, k, LivePlaces(hash, block, bal))
  {
    PayloadStands(b, k, LivePayload(hash, block, bal));
    LowWord(block.header.number);
  }

  /** `encodeExecutionPayloadFromBlock`. */
  method EncodeExecutionPayloadFromBlock(hash: Header -> Bytes32, b: Block, bal: Bytes) returns (r: Option<Bytes>)
    requires FeeInRange(b.header.baseFee)
    ensures r.Some? <==> Marshals(b.txs)
    ensures r.Some? ==> r.value == PayloadBytes(LivePayload(hash, b, bal))
    ensures r.Some? ==> Stands(r.value, 0, LivePlaces(hash, b, bal))
  {
    var h := b.header;
    var raw := MarshalAll(b.txs);
    if raw.None? {
      return None;
    }
    var txs := EncodeByteListList(raw.value);
    var wds := EncodeWithdrawalList(b.withdrawals);
    var baseFee := if h.baseFee.None? then Some(0) else h.baseFee;
    var fee := SszUint256(baseFee);

    var extraDataOff := Wrap32(540);
    var txsOff := Wrap32(extraDataOff + Wrap32(|h.extra|));
    var wdsOff := Wrap32(txsOff + Wrap32(|txs|));
    var balOff := Wrap32(wdsOff + Wrap32(|wds|));
    var blockHash := hash(h);

    var fix: Bytes := [];
    fix := fix + h.parentHash;
    fix := fix + h.coinbase;
    fix := fix + h.root;
    fix := fix + h.receiptHash;
    fix := fix + h.bloom;
    fix := fix + h.mixDigest;
    fix := fix + Le64(h.number % TWO64);
    fix := fix + Le64(h.gasLimit);
    fix := fix + Le64(h.gasUsed);
    fix := fix + Le64(h.time);
    ghost var p := LivePayload(hash, b, bal);
    assert fix == FrontBytes(p);
    fix := fix + Le32(extraDataOff);
    fix := fix + fee;
    fix := fix + blockHash;
    fix := fix + Le32(txsOff);
    fix := fix + Le32(wdsOff);
    fix := fix + Le64(OrZero(h.blobGasUsed));
    fix := fix + Le64(OrZero(h.excessBlobGas));
    fix := fix + Le32(balOff);
    fix := fix + Le64(OrZero(h.slotNumber));
    assert fix == BackBytes(FrontBytes(p), p, txsOff, wdsOff, balOff);

    var out := fix;
    out := out + h.extra;
    out := out + txs;
    out := out + wds;
    out := out + bal;
    WrapAdd(540, |h.extra|);
    PayloadWritten(p, txs, wds, txsOff, wdsOff, balOff);
    FourSections(fix, h.extra, txs, wds, bal);
    LiveStands(out, 0, hash, b, bal);
    return Some(out);
  }

  lemma FourSections(fix: Bytes, a: Bytes, b: Bytes, c: Bytes, d: Bytes)
    ensures fix + a + b + c + d == fix + (a + (b + (c + d)))
  {
  }

  /** `encodeNewPayloadRequestFromBlock`. */
  method EncodeNewPayloadRequestFromBlock(
    hash: Header -> Bytes32, b: Block, root: Bytes32, bal: Bytes, requests: seq<Bytes>) returns (r: Option<Bytes>)
    requires FeeInRange(b.header.baseFee)
    ensures r.Some? <==> Marshals(b.txs) && ValidRequests(requests)
    ensures r.Some? ==>
              r.value == RequestBytes(NewPayloadRequest(LivePayload(hash, b, bal), VersionedHashes(b.txs), root, requests))
    ensures r.Some? ==> At(r.value, 8, root) && Stands(r.value, 44, LivePlaces(hash, b, bal))
  {
    var ep := EncodeExecutionPayloadFromBlock(hash, b, bal);
    if ep.None? {
      return None;
    }
    var vh := EncodeVersionedHashes(b.txs);
    var er := EncodeExecutionRequests(requests);
    if er.None? {
      return None;
    }
    var out := EncodeRequestContainer(ep.value, vh, root, er.value);
    RequestPositions(NewPayloadRequest(LivePayload(hash, b, bal), VersionedHashes(b.txs), root, requests));
    LiveStands(out, 44, hash, b, bal);
    return Some(out);
  }

  function LiveInput(hash: Header -> Bytes32, b: Block, w: Witness, bal: Bytes, requests: seq<Bytes>,
                     chainId: u64, fork: byte): StatelessInput
    requires Marshals(b.txs) && FeeInRange(b.header.baseFee)
  {
    var root := if b.header.beaconRoot.Some? then b.header.beaconRoot.value else Zeros(32);
    StatelessInput(
      OrAmsterdam(fork), if chainId == 0 then 1 else chainId,
      NewPayloadRequest(LivePayload(hash, b, bal), VersionedHashes(b.txs), root, requests), w)
  }

  /** The beacon root: absent is written as zeros. */
  predicate RootAt(b: Bytes, k: nat, root: Option<Bytes32>)
  {
    match root
    case Some(r) => At(b, k, r)
    case None => At(b, k, Zeros(32))
  }

  /** `ZesuInputSSZFromBlock`: chain id 0 falls back to mainnet, fork 0 to Amsterdam. */
  method ZesuInputSSZFromBlock(
    hash: Header -> Bytes32, b: Block, w: Witness, bal: Bytes, requests: seq<Bytes>, chainId: u64, fork: byte)
    returns (r: Option<Bytes>)
    requires FeeInRange(b.header.baseFee)
    ensures r.Some? <==> Marshals(b.txs) && ValidRequests(requests)
    ensures r.Some? ==> r.value == InputBytes(LiveInput(hash, b, w, bal, requests, chainId, fork))
    ensures r.Some? ==> At(r.value, 0, [if fork == 0 then 0x15 else fork, 0x01])
    ensures r.Some? ==> At(r.value, 10, Le64(if chainId == 0 then 1 else chainId))
    ensures r.Some? ==> RootAt(r.value, 26, b.header.beaconRoot) && Stands(r.value, 62, LivePlaces(hash, b, bal))
  {
    var root: Bytes32 := Zeros(32);
    if b.header.beaconRoot.Some? {
      root := b.header.beaconRoot.value;
    }
    var npr := EncodeNewPayloadRequestFromBlock(hash, b, root, bal, requests);
    if npr.None? {
      return None;
    }
    var wit := EncodeExecutionWitness(w);
    var chain, f := chainId, fork;
    if chain == 0 {
      chain := 1;
    }
    if f == 0 {
      f := AMSTERDAM;
    }
    var out := EncodeStatelessInputContainer(npr.value, wit, chain, f);
    ghost var x := LiveInput(hash, b, w, bal, requests, chainId, fork);
    InputPositions(x);
    NestedPositions(x);
    LiveStands(out, 62, hash, b, bal);
    return Some(out);
  }

  // ---- The fixture path ----

  /** Decoded hex of any length, as `mustHexToBytes` returns it, where the field is a string. */
  datatype FixtureHeader = FixtureHeader(
    parentHash: Bytes, beneficiary: Bytes, stateRoot: Bytes, receiptsRoot: Bytes, logsBloom: Bytes, mixHash: Bytes,
    number: u64, gasLimit: u64, gasUsed: u64, timestamp: u64, extraData: Bytes, baseFee: int,
    blobGasUsed: Option<u64>, excessBlobGas: Option<u64>, slotNumber: Option<u64>,
    parentBeaconRoot: Option<Bytes>, other: Bytes)

  datatype FixtureFile = FixtureFile(
    header: FixtureHeader, txs: seq<Tx>, withdrawals: seq<Withdrawal>, accessList: Option<Bytes>,
    wit: Witness, chainConfig: Option<FixtureChainConfig>)

  /** `common.HexToHash`, `common.HexToAddress`: keep the rightmost bytes, pad on the left. */
  function Crop(n: nat, b: Bytes): (r: Bytes)
    ensures |r| == n
    ensures |b| == n ==> r == b
    ensures |b| < n ==> r[n - |b|..] == b && forall i :: 0 <= i < n - |b| ==> r[i] == 0
    ensures |b| >= n ==> b == b[..|b| - n] + r
  {
    if |b| >= n then b[|b| - n..] else Zeros(n - |b|) + b
  }

  /** `hexToBloom`: copies from the left, whatever the length. */
  function CopyInto(n: nat, b: Bytes): (r: Bytes)
    ensures |r| == n
    ensures |b| == n ==> r == b
    ensures forall i :: 0 <= i < n ==> r[i] == if i < |b| then b[i] else 0
  {
    if |b| >= n then b[..n] else b + Zeros(n - |b|)
  }

  function OptionalHash(b: Option<Bytes>): Option<Bytes32>
  {
    if b.Some? then Some(Crop(32, b.value)) else None
  }

  /** `fixtureHeader`: the header the fixture describes, which its block hash is taken of. */
  function HeaderOf(f: FixtureFile): (header: Header)
    ensures header.other == f.header.other
  {
    var h := f.header;
    Header(
      Crop(32, h.parentHash), Crop(20, h.beneficiary), Crop(32, h.stateRoot), Crop(32, h.receiptsRoot),
      CopyInto(256, h.logsBloom), Crop(32, h.mixHash), h.number, h.gasLimit, h.gasUsed, h.timestamp, h.extraData,
      Some(h.baseFee), h.blobGasUsed, h.excessBlobGas, h.slotNumber, OptionalHash(h.parentBeaconRoot), h.other)
  }

  function AccessListOf(f: FixtureFile): Bytes
  {
    if f.accessList.Some? then f.accessList.value else []
  }

  function FixturePayload(hash: Header -> Bytes32, f: FixtureFile): ExecutionPayload
    requires Marshals(f.txs) && FeeInRange(Some(f.header.baseFee))
  {
    var h := f.header;
    ExecutionPayload(
      h.parentHash, Crop(20, h.beneficiary), h.stateRoot, h.receiptsRoot, CopyInto(256, h.logsBloom), h.mixHash,
      h.number, h.gasLimit, h.gasUsed, h.timestamp, h.extraData, FeeValue(Some(h.baseFee)), hash(HeaderOf(f)),
      Envelopes(f.txs), f.withdrawals, OrZero(h.blobGasUsed), OrZero(h.excessBlobGas), AccessListOf(f),
      OrZero(h.slotNumber))
  }

  /** The four fields the fixture encoder copies unchecked have the size of a hash. */
  predicate HashSized(h: FixtureHeader)
  {
    |h.parentHash| == |h.stateRoot| == |h.receiptsRoot| == |h.mixHash| == 32
  }

  /** The payload of a hash-sized fixture, field by field. */
  function FixturePlaces(hash: Header -> Bytes32, f: FixtureFile): Places
    requires Marshals(f.txs)
  {
    var h := f.header;
    var bal := match f.accessList case Some(list) => list case None => [];
    PayloadTable(
      h.parentHash, Crop(20, h.beneficiary), h.stateRoot, h.receiptsRoot, CopyInto(256, h.logsBloom), h.mixHash,
      Le64(h.number), Le64(h.gasLimit), Le64(h.gasUsed), Le64(h.timestamp),
      BackTable(h.extraData, Fee(Some(h.baseFee)), hash(HeaderOf(f)), ListBytes(Envelopes(f.txs)),
                WithdrawalsBytes(f.withdrawals), Optional(h.blobGasUsed), Optional(h.excessBlobGas), bal,
                Optional(h.slotNumber)))
  }

  lemma {:induction false} FixtureStands(b: Bytes, k: nat, hash: Header -> Bytes32, f: FixtureFile)
    requires Marshals(f.txs) && FeeInRange(Some(f.header.baseFee)) && HashSized(f.header)
    requires At(b, k, PayloadBytes(FixturePayload(hash, f)))
    ensures Stands(b, k, FixturePlaces(hash, f))
  {
    PayloadStands(b, k, FixturePayload(hash, f));
  }

  lemma {:induction false} FixtureStandsIf(b: Bytes, hash: Header -> Bytes32, f: FixtureFile)
    requires Marshals(f.txs) && FeeInRange(Some(f.header.baseFee)) && b == PayloadBytes(FixturePayload(hash, f))
    ensures HashSized(f.header) ==> Stands(b, 0, FixturePlaces(hash, f))
  {
    if HashSized(f.header) {
      FixtureStands(b, 0, hash, f);
    }
  }

  /** `encodeSszExecutionPayload`: four hash fields go in as raw bytes, unchecked. */
  method EncodeSszExecutionPayload(hash: Header -> Bytes32, f: FixtureFile) returns (r: Option<Bytes>)
    requires FeeInRange(Some(f.header.baseFee))
    ensures r.Some? <==> Marshals(f.txs)
    ensures r.Some? ==> r.value == PayloadBytes(FixturePayload(hash, f))
    ensures r.Some? && HashSized(f.header) ==> Stands(r.value, 0, FixturePlaces(hash, f))
  {
    var h := f.header;
    var blockHash := hash(HeaderOf(f));
    var raw := MarshalAll(f.txs);
    if raw.None? {
      return None;
    }
    var txs := EncodeByteListList(raw.value);
    var wds := EncodeWithdrawalList(f.withdrawals);
    var fee := SszUint256(Some(h.baseFee));
    var bal: Bytes := [];
    if f.accessList.Some? {
      bal := f.accessList.value;
    }

    var extraDataOff := Wrap32(540);
    var txsOff := Wrap32(extraDataOff + Wrap32(|h.extraData|));
    var wdsOff := Wrap32(txsOff + Wrap32(|txs|));
    var balOff := Wrap32(wdsOff + Wrap32(|wds|));

    var fix: Bytes := [];
    fix := fix + h.parentHash;
    fix := fix + Crop(20, h.beneficiary);
    fix := fix + h.stateRoot;
    fix := fix + h.receiptsRoot;
    fix := fix + CopyInto(256, h.logsBloom);
    fix := fix + h.mixHash;
    fix := fix + Le64(h.number);
    fix := fix + Le64(h.gasLimit);
    fix := fix + Le64(h.gasUsed);
    fix := fix + Le64(h.timestamp);
    ghost var p := FixturePayload(hash, f);
    assert fix == FrontBytes(p);
    fix := fix + Le32(extraDataOff);
    fix := fix + fee;
    fix := fix + blockHash;
    fix := fix + Le32(txsOff);
    fix := fix + Le32(wdsOff);
    fix := fix + Le64(OrZero(h.blobGasUsed));
    fix := fix + Le64(OrZero(h.excessBlobGas));
    fix := fix + Le32(balOff);
    fix := fix + Le64(OrZero(h.slotNumber));
    assert fix == BackBytes(FrontBytes(p), p, txsOff, wdsOff, balOff);

    var out := fix;
    out := out + h.extraData;
    out := out + txs;
    out := out + wds;
    out := out + bal;
    WrapAdd(540, |h.extraData|);
    PayloadWritten(p, txs, wds, txsOff, wdsOff, balOff);
    FourSections(fix, h.extraData, txs, wds, bal);
    FixtureStandsIf(out, hash, f);
    return Some(out);
  }

  function FixtureChainId(f: FixtureFile): u64
  {
    if f.chainConfig.Some? && f.chainConfig.value.chainId != 0 then f.chainConfig.value.chainId else 1
  }

  function FixtureInput(hash: Header -> Bytes32, f: FixtureFile): StatelessInput
    requires Marshals(f.txs) && FeeInRange(Some(f.header.baseFee))
  {
    var root := if f.header.parentBeaconRoot.Some? then Crop(32, f.header.parentBeaconRoot.value) else Zeros(32);
    StatelessInput(
      FixtureFork(f.chainConfig, f.header.timestamp), FixtureChainId(f),
      NewPayloadRequest(FixturePayload(hash, f), VersionedHashes(f.txs), root, []), f.wit)
  }

  lemma {:induction false} FixtureInputPositions(hash: Header -> Bytes32, f: FixtureFile)
    requires Marshals(f.txs) && FeeInRange(Some(f.header.baseFee))
    ensures var b := InputBytes(FixtureInput(hash, f));
            && At(b, 0, [FixtureFork(f.chainConfig, f.header.timestamp), 0x01]) && At(b, 10, Le64(FixtureChainId(f)))
            && RootAt(b, 26, OptionalHash(f.header.parentBeaconRoot))
            && (HashSized(f.header) ==> Stands(b, 62, FixturePlaces(hash, f)))
  {
    var x := FixtureInput(hash, f);
    InputPositions(x);
    NestedPositions(x);
    if HashSized(f.header) {
      FixtureStands(InputBytes(x), 62, hash, f);
    }
  }

  /** `ZesuInputSSZPlain`, from decoded bytes on. Fixtures carry no execution requests. */
  method ZesuInputSSZPlain(hash: Header -> Bytes32, f: FixtureFile) returns (r: Option<Bytes>)
    requires FeeInRange(Some(f.header.baseFee))
    ensures r.Some? <==> Marshals(f.txs)
    ensures r.Some? ==> r.value == InputBytes(FixtureInput(hash, f))
    ensures r.Some? ==> At(r.value, 0, [FixtureFork(f.chainConfig, f.header.timestamp), 0x01])
    ensures r.Some? ==> At(r.value, 10, Le64(FixtureChainId(f)))
    ensures r.Some? ==> RootAt(r.value, 26, OptionalHash(f.header.parentBeaconRoot))
    ensures r.Some? && HashSized(f.header) ==> Stands(r.value, 62, FixturePlaces(hash, f))
  {
    var root: Bytes32 := Zeros(32);
    if f.header.parentBeaconRoot.Some? {
      root := Crop(32, f.header.parentBeaconRoot.value);
    }
    var ep := EncodeSszExecutionPayload(hash, f);
    if ep.None? {
      return None;
    }
    var vh := EncodeVersionedHashes(f.txs);
    var er := EncodeExecutionRequests([]);
    var npr := EncodeRequestContainer(ep.value, vh, root, er.value);
    var wit := EncodeExecutionWitness(f.wit);
    var chainId: u64 := 1;
    if f.chainConfig.Some? && f.chainConfig.value.chainId != 0 {
      chainId := f.chainConfig.value.chainId;
    }
    var fork := ActiveProtocolFork(f.chainConfig, f.header.timestamp);
    var out := EncodeStatelessInputContainer(npr, wit, chainId, fork);
    FixtureInputPositions(hash, f);
    return Some(out);
  }

  /** `ZesuInputSSZ`: the plain encoding in the zkvm file framing. */
  method ZesuInputSSZ(hash: Header -> Bytes32, f: FixtureFile) returns (r: Option<Bytes>)
    requires FeeInRange(Some(f.header.baseFee))
    ensures r.Some? <==> Marshals(f.txs)
    ensures r.Some? ==> r.value == Framing.Frame(InputBytes(FixtureInput(hash, f)))
    ensures r.Some? && HashSized(f.header) ==> Stands(r.value, 70, FixturePlaces(hash, f))
  {
    var payload := ZesuInputSSZPlain(hash, f);
    if payload.None? {
      return None;
    }
    var framed := Framing.ZkvmFrame(payload.value);
    if HashSized(f.header) {
      NestedPositions(FixtureInput(hash, f));
      Framing.FrameSections(payload.value);
      Inside(framed, 8, payload.value);
      FixtureStands(framed, 70, hash, f);
    }
    return Some(framed);
  }

  /** A guest: takes the payload out of the file, then reads it strictly. */
  function GuestReads(file: Bytes): Option<StatelessInput>
  {
    var payload := Framing.Unframe(file);
    if payload.None? then None else DecodeInput(payload.value)
  }

  /** File to fields: a guest reads `x` from exactly one file, the framed encoding of `x`. */
  lemma {:induction false} GuestReadsExactly(file: Bytes, x: StatelessInput)
    ensures GuestReads(file) == Some(x)
       <==> ValidInput(x) && InputFits(x) && |InputBytes(x)| < TWO64 && file == Framing.Frame(InputBytes(x))
  {
    Framing.UnframeExactly(file, InputBytes(x));
    if GuestReads(file) == Some(x) {
      DecodeInputExactly(Framing.Unframe(file).value, x);
    }
    DecodeInputExactly(InputBytes(x), x);
  }

  lemma {:induction false} FixtureValidIff(hash: Header -> Bytes32, f: FixtureFile)
    requires Marshals(f.txs) && FeeInRange(Some(f.header.baseFee))
    ensures ValidInput(FixtureInput(hash, f)) <==> HashSized(f.header)
  {
    assert ValidRequests([]);
  }

  /** A fixture's encoding reads back iff its four raw hash fields are 32 bytes and three sums are below 2^32. */
  lemma {:induction false} FixtureReadsBackIff(hash: Header -> Bytes32, f: FixtureFile)
    requires Marshals(f.txs) && FeeInRange(Some(f.header.baseFee))
    ensures var x := FixtureInput(hash, f);
            DecodeInput(InputBytes(x)) == Some(x) <==> HashSized(f.header) && SumsFit(x)
  {
    FixtureValidIff(hash, f);
    ReadsBackIff(FixtureInput(hash, f));
  }

  /** A live block's encoding reads back iff three sums are below 2^32. */
  lemma {:induction false} LiveReadsBackIff(hash: Header -> Bytes32, b: Block, w: Witness, bal: Bytes,
                                            requests: seq<Bytes>, chainId: u64, fork: byte)
    requires Marshals(b.txs) && FeeInRange(b.header.baseFee) && ValidRequests(requests)
    ensures var x := LiveInput(hash, b, w, bal, requests, chainId, fork);
            DecodeInput(InputBytes(x)) == Some(x) <==> SumsFit(x)
  {
    var x := LiveInput(hash, b, w, bal, requests, chainId, fork);
    assert ValidInput(x);
    ReadsBackIff(x);
  }

  // ---- The two paths agree ----

  /** What `pipeline.Fetch` passes on: 0 for both without a chain config. */
  function LiveChainId(g: Option<GenesisChainConfig>): u64
  {
    if g.Some? then g.value.chainId else 0
  }

  function LiveFork(g: Option<GenesisChainConfig>, t: u64): byte
  {
    if g.Some? then GenesisForkAt(g.value.activeForks, t) else 0
  }

  /**
   * The fixture's chain config and the genesis file describe the same chain; see
   * `SameChainFromFile`. Without either, `NoConfigMatchesIff` is about what `main` passes.
   */
  predicate SameChain(cc: Option<FixtureChainConfig>, g: Option<GenesisChainConfig>)
  {
    if cc.None? then g.None? else g == Some(GenesisChainConfig(cc.value.chainId, Timed(CancunOnward(cc.value))))
  }

  /** A genesis file with the fixture's chain id and times, if it parses, is the same chain. */
  lemma {:induction false} SameChainFromFile(cc: FixtureChainConfig, config: ConfigFields)
    requires Describes(config, cc) && GenesisOf(config).Some?
    ensures SameChain(Some(cc), GenesisOf(config))
  {
    GenesisOfFixture(cc, config);
  }

  /** The input the live path builds for the block a fixture describes. */
  function LiveTwin(hash: Header -> Bytes32, f: FixtureFile, g: Option<GenesisChainConfig>): StatelessInput
    requires Marshals(f.txs) && FeeInRange(Some(f.header.baseFee))
  {
    LiveInput(hash, Block(HeaderOf(f), f.txs, f.withdrawals), f.wit, AccessListOf(f), [],
              LiveChainId(g), LiveFork(g, f.header.timestamp))
  }

  /** The first six header fields as the fixture path writes them. */
  function RawFields(h: FixtureHeader): Bytes
  {
    h.parentHash + (Crop(20, h.beneficiary) + (h.stateRoot + (h.receiptsRoot + (CopyInto(256, h.logsBloom) + h.mixHash))))
  }

  /** The same fields after `hexToHash`, which the live path writes. */
  function HeaderFields(h: FixtureHeader): Bytes
  {
    Crop(32, h.parentHash) +
    (Crop(20, h.beneficiary) +
    (Crop(32, h.stateRoot) + (Crop(32, h.receiptsRoot) + (CopyInto(256, h.logsBloom) + Crop(32, h.mixHash)))))
  }

  /** Hash-sized fields always agree; fields whose lengths do not add up to four hashes never do. */
  lemma {:induction false} FieldsAgree(h: FixtureHeader)
    ensures HashSized(h) ==> RawFields(h) == HeaderFields(h)
    ensures |h.parentHash| + |h.stateRoot| + |h.receiptsRoot| + |h.mixHash| != 128 ==> RawFields(h) != HeaderFields(h)
  {
    assert |RawFields(h)| == 276 + |h.parentHash| + |h.stateRoot| + |h.receiptsRoot| + |h.mixHash|;
    assert |HeaderFields(h)| == 404;
  }

  lemma {:induction false} TwinPayload(hash: Header -> Bytes32, f: FixtureFile)
    requires Marshals(f.txs) && FeeInRange(Some(f.header.baseFee))
    ensures var p := FixturePayload(hash, f);
            var q := LivePayload(hash, Block(HeaderOf(f), f.txs, f.withdrawals), AccessListOf(f));
            PayloadBytes(p) == PayloadBytes(q) <==> RawFields(f.header) == HeaderFields(f.header)
  {
    var p := FixturePayload(hash, f);
    var q := LivePayload(hash, Block(HeaderOf(f), f.txs, f.withdrawals), AccessListOf(f));
    var h := f.header;
    assert q == p.(parentHash := Crop(32, h.parentHash), stateRoot := Crop(32, h.stateRoot),
                   receiptsRoot := Crop(32, h.receiptsRoot), prevRandao := Crop(32, h.mixHash));
    assert HashBytes(p) == RawFields(h) && HashBytes(q) == HeaderFields(h);
    SamePayloadIff(p, q);
  }

  lemma {:induction false} SameForkIff(f: FixtureFile, g: Option<GenesisChainConfig>)
    requires SameChain(f.chainConfig, g)
    ensures FixtureFork(f.chainConfig, f.header.timestamp) == OrAmsterdam(LiveFork(g, f.header.timestamp))
       <==> !(f.chainConfig.Some? && OnlyShanghaiActive(f.chainConfig.value, f.header.timestamp))
  {
    if f.chainConfig.Some? {
      ResolversAgreeIff(f.chainConfig.value, f.header.timestamp);
    }
  }

  /** The two paths on one block, with whatever chain config the live side has for the same chain id. */
  lemma {:induction false} TwinMatchesIff(hash: Header -> Bytes32, f: FixtureFile, g: Option<GenesisChainConfig>)
    requires Marshals(f.txs) && FeeInRange(Some(f.header.baseFee))
    requires FixtureChainId(f) == if LiveChainId(g) == 0 then 1 else LiveChainId(g)
    ensures InputBytes(FixtureInput(hash, f)) == InputBytes(LiveTwin(hash, f, g))
       <==> && RawFields(f.header) == HeaderFields(f.header)
            && FixtureFork(f.chainConfig, f.header.timestamp) == OrAmsterdam(LiveFork(g, f.header.timestamp))
  {
    var x, y := FixtureInput(hash, f), LiveTwin(hash, f, g);
    TwinPayload(hash, f);
    assert y.request == x.request.(payload := y.request.payload);
    SameRequestIff(x.request, y.request);
    assert y == x.(fork := y.fork, request := y.request);
    SameInputIff(x, y);
  }

  /**
   * For the same block and chain, the live path emits the very bytes the fixture path emits iff
   * the raw hash fields run together to what the header says, as they do when each is 32 bytes,
   * and Shanghai is not the newest active fork: a genesis file cannot name it, and the schema ids
   * differ.
   */
  lemma {:induction false} FixtureMatchesLiveIff(hash: Header -> Bytes32, f: FixtureFile, g: Option<GenesisChainConfig>)
    requires Marshals(f.txs) && FeeInRange(Some(f.header.baseFee)) && SameChain(f.chainConfig, g)
    ensures InputBytes(FixtureInput(hash, f)) == InputBytes(LiveTwin(hash, f, g))
       <==> && RawFields(f.header) == HeaderFields(f.header)
            && !(f.chainConfig.Some? && OnlyShanghaiActive(f.chainConfig.value, f.header.timestamp))
    ensures HashSized(f.header) ==> RawFields(f.header) == HeaderFields(f.header)
  {
    FieldsAgree(f.header);
    SameForkIff(f, g);
    TwinMatchesIff(hash, f, g);
  }

  /**
   * Without any chain config a fixture means Amsterdam, and a live run the mainnet schedule, which
   * has no Amsterdam: the two paths part at mainnet's Cancun.
   */
  lemma {:induction false} NoConfigMatchesIff(hash: Header -> Bytes32, f: FixtureFile)
    requires Marshals(f.txs) && FeeInRange(Some(f.header.baseFee)) && f.chainConfig.None?
    ensures InputBytes(FixtureInput(hash, f)) == InputBytes(LiveTwin(hash, f, Some(MAINNET)))
       <==> RawFields(f.header) == HeaderFields(f.header) && f.header.timestamp < 1710338135
  {
    MainnetIsAmsterdamIff(f.header.timestamp);
    TwinMatchesIff(hash, f, Some(MAINNET));
  }

  // ---- Inputs at which the promises fail ----

  /** A missing parent hash: the encoding does not read back, and is not what the live path emits. */
  lemma {:induction false} ShortHashIsLost(hash: Header -> Bytes32, f: FixtureFile, g: Option<GenesisChainConfig>)
    requires Marshals(f.txs) && FeeInRange(Some(f.header.baseFee)) && SameChain(f.chainConfig, g)
    requires f.header.parentHash == [] && |f.header.stateRoot| == |f.header.receiptsRoot| == |f.header.mixHash| == 32
    ensures DecodeInput(InputBytes(FixtureInput(hash, f))) != Some(FixtureInput(hash, f))
    ensures InputBytes(FixtureInput(hash, f)) != InputBytes(LiveTwin(hash, f, g))
  {
    FixtureReadsBackIff(hash, f);
    FieldsAgree(f.header);
    FixtureMatchesLiveIff(hash, f, g);
  }

  /** Shanghai since time 0 and Cancun at 100, as a fixture and as a genesis file that parses. */
  const SHANGHAI_CHAIN := FixtureChainConfig(1, Some(0), Some(100), None, None, None, None, None)
  const SHANGHAI_FILE: ConfigFields := map["chainId" := Some(1), "cancunTime" := Some(100)]

  /** At time 50 of that chain the two paths write different schema ids for the same block. */
  lemma {:induction false} ShanghaiMismatch(hash: Header -> Bytes32, f: FixtureFile)
    requires Marshals(f.txs) && FeeInRange(Some(f.header.baseFee))
    requires f.chainConfig == Some(SHANGHAI_CHAIN) && f.header.timestamp == 50
    ensures GenesisOf(SHANGHAI_FILE).Some? && SameChain(f.chainConfig, GenesisOf(SHANGHAI_FILE))
    ensures InputBytes(FixtureInput(hash, f)) != InputBytes(LiveTwin(hash, f, GenesisOf(SHANGHAI_FILE)))
  {
    assert Describes(SHANGHAI_FILE, SHANGHAI_CHAIN);
    assert CancunOnward(SHANGHAI_CHAIN)[0].time.Some?;
    GenesisOfFixture(SHANGHAI_CHAIN, SHANGHAI_FILE);
    SameChainFromFile(SHANGHAI_CHAIN, SHANGHAI_FILE);
    assert OnlyShanghaiActive(SHANGHAI_CHAIN, 50);
    FixtureMatchesLiveIff(hash, f, GenesisOf(SHANGHAI_FILE));
  }
}
