/** SszExecutionPayload: the 540-byte fixed region and its four variable-size fields. */
module SszPayload {
  import opened Bytes
  import opened SszContainer
  import opened SszLists

  /**
   * The decoded payload. The four hash fields the fixture encoder copies from raw hex have no
   * fixed size of their own; `WellSized` says when they are hashes.
   */
  datatype ExecutionPayload = ExecutionPayload(
    parentHash: Bytes, feeRecipient: Bytes20, stateRoot: Bytes, receiptsRoot: Bytes,
    logsBloom: Bytes256, prevRandao: Bytes,
    number: u64, gasLimit: u64, gasUsed: u64, timestamp: u64, extraData: Bytes,
    baseFee: u256, blockHash: Bytes32, transactions: seq<Bytes>, withdrawals: seq<Withdrawal>,
    blobGasUsed: u64, excessBlobGas: u64, accessList: Bytes, slotNumber: u64)

  predicate WellSized(p: ExecutionPayload)
  {
    |p.parentHash| == |p.stateRoot| == |p.receiptsRoot| == |p.prevRandao| == 32
  }

  const PAYLOAD_FIXED := 540

  const PAYLOAD_BACK: Shapes :=
    Offset(Inline(32, Inline(32, Offset(Offset(Inline(8, Inline(8, Offset(Inline(8, Done)))))))))

  const PAYLOAD: Shapes :=
    Inline(32, Inline(20, Inline(32, Inline(32, Inline(256, Inline(32,
    Inline(8, Inline(8, Inline(8, Inline(8, PAYLOAD_BACK))))))))))

  function PayloadFront(p: ExecutionPayload, rest: Parts): Parts
  {
    Fixed(p.parentHash, Fixed(p.feeRecipient, Fixed(p.stateRoot, Fixed(p.receiptsRoot,
    Fixed(p.logsBloom, Fixed(p.prevRandao,
    Fixed(Le64(p.number), Fixed(Le64(p.gasLimit), Fixed(Le64(p.gasUsed), Fixed(Le64(p.timestamp), rest))))))))))
  }

  function PayloadBack(p: ExecutionPayload, txs: Bytes, wds: Bytes): Parts
  {
    Var(p.extraData, Fixed(Le256(p.baseFee), Fixed(p.blockHash, Var(txs, Var(wds,
    Fixed(Le64(p.blobGasUsed), Fixed(Le64(p.excessBlobGas),
    Var(p.accessList, Fixed(Le64(p.slotNumber), End)))))))))
  }

  function PayloadParts(p: ExecutionPayload): Parts
  {
    PayloadFront(p, PayloadBack(p, ListBytes(p.transactions), WithdrawalsBytes(p.withdrawals)))
  }

  /** What the encoders write: offsets count from 540 whatever the fixed region really measures. */
  function PayloadBytes(p: ExecutionPayload): Bytes
  {
    Head(PayloadParts(p), PAYLOAD_FIXED) + Tail(PayloadParts(p))
  }

  predicate PayloadFits(p: ExecutionPayload)
  {
    OffsetsFit(PayloadParts(p), PAYLOAD_FIXED) && ListFits(p.transactions)
  }

  function ReadU256(b: Bytes): (v: u256)
    requires |b| == 32
    ensures FromLE(b) == v
  {
    FromLEBound(b);
    Pow256Of32();
    FromLE(b)
  }

  /** The payload whose parts these are. */
  function FromParts(ps: Parts): Option<ExecutionPayload>
  {
    match ps
    case Fixed(parent, Fixed(fee, Fixed(state, Fixed(receipts, Fixed(bloom, Fixed(randao,
         Fixed(num, Fixed(limit, Fixed(used, Fixed(time, Var(extra,
         Fixed(base, Fixed(hash, Var(txs, Var(wds,
         Fixed(blob, Fixed(excess, Var(bal, Fixed(slot, End))))))))))))))))))) =>
      var transactions, withdrawals := DecodeList(txs), DecodeWithdrawals(wds);
      if && |parent| == |state| == |receipts| == |randao| == |base| == |hash| == 32
         && |fee| == 20 && |bloom| == 256
         && |num| == |limit| == |used| == |time| == |blob| == |excess| == |slot| == 8
         && transactions.Some? && withdrawals.Some?
      then Some(ExecutionPayload(
                  parent, fee, state, receipts, bloom, randao,
                  ReadU64(num), ReadU64(limit), ReadU64(used), ReadU64(time), extra,
                  ReadU256(base), hash, transactions.value, withdrawals.value,
                  ReadU64(blob), ReadU64(excess), bal, ReadU64(slot)))
      else None
    case _ => None
  }

  function DecodePayload(b: Bytes): Option<ExecutionPayload>
  {
    var ps := Deserialize(PAYLOAD, b);
    if ps.None? then None else FromParts(ps.value)
  }

  lemma TwoInline(a: nat, b: nat, next: Shapes)
    ensures FixedSize(Inline(a, Inline(b, next))) == a + b + FixedSize(next)
  {
    assert FixedSize(Inline(b, next)) == b + FixedSize(next);
  }

  lemma OneOffset(next: Shapes)
    ensures FixedSize(Offset(next)) == 4 + FixedSize(next)
  {
  }

  /** The shapes come as parameters, so that no step sees more of the layout than two fields. */
  lemma {:induction false} BackSize(back: Shapes, fee: Shapes, lists: Shapes, wds: Shapes, blob: Shapes, bal: Shapes, slot: Shapes)
    requires back == Offset(fee) && fee == Inline(32, Inline(32, lists)) && lists == Offset(wds) && wds == Offset(blob)
    requires blob == Inline(8, Inline(8, bal)) && bal == Offset(slot) && slot == Inline(8, Done)
    ensures FixedSize(back) == 104
  {
    OneOffset(fee);
    TwoInline(32, 32, lists);
    OneOffset(wds);
    OneOffset(blob);
    TwoInline(8, 8, bal);
    OneOffset(slot);
  }

  lemma {:induction false} FrontSize(all: Shapes, roots: Shapes, bloom: Shapes, number: Shapes, used: Shapes, back: Shapes)
    requires all == Inline(32, Inline(20, roots)) && roots == Inline(32, Inline(32, bloom))
    requires bloom == Inline(256, Inline(32, number)) && number == Inline(8, Inline(8, used))
    requires used == Inline(8, Inline(8, back)) && FixedSize(back) == 104
    ensures FixedSize(all) == PAYLOAD_FIXED
  {
    TwoInline(32, 20, roots);
    TwoInline(32, 32, bloom);
    TwoInline(256, 32, number);
    TwoInline(8, 8, used);
    TwoInline(8, 8, back);
  }

  lemma {:induction false} FixedSizes()
    ensures FixedSize(PAYLOAD_BACK) == 104 && FixedSize(PAYLOAD) == PAYLOAD_FIXED
  {
    var fee := PAYLOAD_BACK.next;
    var lists := fee.next.next;
    var blob := lists.next.next;
    var bal := blob.next.next;
    BackSize(PAYLOAD_BACK, fee, lists, lists.next, blob, bal, bal.next);
    var roots := PAYLOAD.next.next;
    var bloom := roots.next.next;
    var number := bloom.next.next;
    FrontSize(PAYLOAD, roots, bloom, number, number.next.next, PAYLOAD_BACK);
  }

  lemma {:induction false} BackShape(p: ExecutionPayload, txs: Bytes, wds: Bytes)
    ensures ShapesOf(PayloadBack(p, txs, wds)) == PAYLOAD_BACK
  {
    var bal := Var(p.accessList, Fixed(Le64(p.slotNumber), End));
    assert ShapesOf(bal.more) == Inline(8, Done);
    var blob := Fixed(Le64(p.blobGasUsed), Fixed(Le64(p.excessBlobGas), bal));
    assert ShapesOf(blob) == Inline(8, Inline(8, ShapesOf(bal)));
    var lists := Var(txs, Var(wds, blob));
    assert ShapesOf(lists) == Offset(Offset(ShapesOf(blob)));
    var fee := Fixed(Le256(p.baseFee), Fixed(p.blockHash, lists));
    assert ShapesOf(fee) == Inline(32, Inline(32, ShapesOf(lists)));
  }

  lemma {:induction false} FrontShape(p: ExecutionPayload, back: Parts)
    requires WellSized(p) && ShapesOf(back) == PAYLOAD_BACK
    ensures ShapesOf(PayloadFront(p, back)) == PAYLOAD
  {
    var used := Fixed(Le64(p.gasUsed), Fixed(Le64(p.timestamp), back));
    assert ShapesOf(used) == Inline(8, Inline(8, PAYLOAD_BACK));
    var number := Fixed(Le64(p.number), Fixed(Le64(p.gasLimit), used));
    assert ShapesOf(number) == Inline(8, Inline(8, ShapesOf(used)));
    var bloom := Fixed(p.logsBloom, Fixed(p.prevRandao, number));
    assert ShapesOf(bloom) == Inline(256, Inline(32, ShapesOf(number)));
    var roots := Fixed(p.stateRoot, Fixed(p.receiptsRoot, bloom));
    assert ShapesOf(roots) == Inline(32, Inline(32, ShapesOf(bloom)));
  }

  lemma {:induction false} PayloadShape(p: ExecutionPayload)
    requires WellSized(p)
    ensures ShapesOf(PayloadParts(p)) == PAYLOAD && FixedSize(PAYLOAD) == PAYLOAD_FIXED
  {
    var txs, wds := ListBytes(p.transactions), WithdrawalsBytes(p.withdrawals);
    FixedSizes();
    BackShape(p, txs, wds);
    FrontShape(p, PayloadBack(p, txs, wds));
  }

  lemma {:induction false} PayloadTail(p: ExecutionPayload)
    ensures Tail(PayloadParts(p))
         == p.extraData + (ListBytes(p.transactions) + (WithdrawalsBytes(p.withdrawals) + p.accessList))
  {
    var bal := Var(p.accessList, Fixed(Le64(p.slotNumber), End));
    assert Tail(bal.more) == [];
    assert Tail(bal) == p.accessList + [];
    var lists := Var(ListBytes(p.transactions), Var(WithdrawalsBytes(p.withdrawals),
                 Fixed(Le64(p.blobGasUsed), Fixed(Le64(p.excessBlobGas), bal))));
    assert Tail(lists.more.more) == Tail(bal);
    assert Tail(lists) == ListBytes(p.transactions) + (WithdrawalsBytes(p.withdrawals) + p.accessList);
    var extra := Var(p.extraData, Fixed(Le256(p.baseFee), Fixed(p.blockHash, lists)));
    assert Tail(extra.more) == Tail(lists);
    var gas := Fixed(Le64(p.gasUsed), Fixed(Le64(p.timestamp), extra));
    assert Tail(gas) == Tail(extra);
    var number := Fixed(Le64(p.number), Fixed(Le64(p.gasLimit), gas));
    assert Tail(number) == Tail(gas);
    var bloom := Fixed(p.logsBloom, Fixed(p.prevRandao, number));
    assert Tail(bloom) == Tail(number);
    var roots := Fixed(p.stateRoot, Fixed(p.receiptsRoot, bloom));
    assert Tail(roots) == Tail(bloom);
    assert Tail(PayloadParts(p)) == Tail(roots);
  }

  /** The six fields in front, four of them of any length in a fixture. */
  function HashBytes(p: ExecutionPayload): Bytes
  {
    p.parentHash + (p.feeRecipient + (p.stateRoot + (p.receiptsRoot + (p.logsBloom + p.prevRandao))))
  }

  /** The fields after them. */
  function AfterHashes(p: ExecutionPayload): Parts
  {
    Fixed(Le64(p.number), Fixed(Le64(p.gasLimit), Fixed(Le64(p.gasUsed), Fixed(Le64(p.timestamp),
    PayloadBack(p, ListBytes(p.transactions), WithdrawalsBytes(p.withdrawals))))))
  }

  lemma {:induction false} PayloadSplit(p: ExecutionPayload)
    ensures PayloadBytes(p) == HashBytes(p) + (Head(AfterHashes(p), PAYLOAD_FIXED) + Tail(AfterHashes(p)))
  {
    var more := AfterHashes(p);
    var h, t := Head(more, PAYLOAD_FIXED), Tail(more);
    var bloom := Fixed(p.logsBloom, Fixed(p.prevRandao, more));
    assert Head(bloom, PAYLOAD_FIXED) == p.logsBloom + (p.prevRandao + h) && Tail(bloom) == t;
    var roots := Fixed(p.stateRoot, Fixed(p.receiptsRoot, bloom));
    assert Head(roots, PAYLOAD_FIXED) == p.stateRoot + (p.receiptsRoot + Head(bloom, PAYLOAD_FIXED)) && Tail(roots) == t;
    var ps := Fixed(p.parentHash, Fixed(p.feeRecipient, roots));
    assert ps == PayloadParts(p);
    assert Head(ps, PAYLOAD_FIXED) == p.parentHash + (p.feeRecipient + Head(roots, PAYLOAD_FIXED)) && Tail(ps) == t;
    SevenPieces(p.parentHash, p.feeRecipient, p.stateRoot, p.receiptsRoot, p.logsBloom, p.prevRandao, h, t);
  }

  lemma SevenPieces(a: Bytes, b: Bytes, c: Bytes, d: Bytes, e: Bytes, f: Bytes, h: Bytes, t: Bytes)
    ensures a + (b + (c + (d + (e + (f + h))))) + t == a + (b + (c + (d + (e + f)))) + (h + t)
  {
  }

  /** Payloads that differ only in the raw hash fields encode alike iff those fields run together alike. */
  lemma {:induction false} SamePayloadIff(p: ExecutionPayload, q: ExecutionPayload)
    requires AfterHashes(p) == AfterHashes(q)
    ensures PayloadBytes(p) == PayloadBytes(q) <==> HashBytes(p) == HashBytes(q)
  {
    PayloadSplit(p);
    PayloadSplit(q);
    Cancel([], [], HashBytes(p), HashBytes(q), Head(AfterHashes(p), PAYLOAD_FIXED) + Tail(AfterHashes(p)));
  }

  function PayloadSize(p: ExecutionPayload): nat
  {
    PAYLOAD_FIXED + |p.extraData| + ListSize(p.transactions) + WITHDRAWAL_SIZE * |p.withdrawals| + |p.accessList|
  }

  lemma {:induction false} PayloadLength(p: ExecutionPayload)
    requires WellSized(p)
    ensures |PayloadBytes(p)| == PayloadSize(p)
  {
    PayloadShape(p);
    PayloadTail(p);
    ListLength(p.transactions);
    WithdrawalsLength(p.withdrawals);
  }

  /** The first ten fields as a buffer grows by them. */
  function FrontBytes(p: ExecutionPayload): Bytes
  {
    [] + p.parentHash + p.feeRecipient + p.stateRoot + p.receiptsRoot + p.logsBloom + p.prevRandao
    + Le64(p.number) + Le64(p.gasLimit) + Le64(p.gasUsed) + Le64(p.timestamp)
  }

  /** The other nine, after them; the lists start at `x1`, `x2` and `x3`. */
  function BackBytes(buf: Bytes, p: ExecutionPayload, x1: nat, x2: nat, x3: nat): Bytes
  {
    buf + Le32(PAYLOAD_FIXED) + Le256(p.baseFee) + p.blockHash + Le32(x1) + Le32(x2)
    + Le64(p.blobGasUsed) + Le64(p.excessBlobGas) + Le32(x3) + Le64(p.slotNumber)
  }

  lemma {:induction false} FrontWritten(p: ExecutionPayload, rest: Parts)
    ensures Written([], PayloadFront(p, rest), PAYLOAD_FIXED) == Written(FrontBytes(p), rest, PAYLOAD_FIXED)
  {
    var gas := Fixed(Le64(p.gasUsed), Fixed(Le64(p.timestamp), rest));
    var number := Fixed(Le64(p.number), Fixed(Le64(p.gasLimit), gas));
    var bloom := Fixed(p.logsBloom, Fixed(p.prevRandao, number));
    var roots := Fixed(p.stateRoot, Fixed(p.receiptsRoot, bloom));
    TwoFixed([], p.parentHash, p.feeRecipient, roots);
    var b1 := [] + p.parentHash + p.feeRecipient;
    TwoFixed(b1, p.stateRoot, p.receiptsRoot, bloom);
    var b2 := b1 + p.stateRoot + p.receiptsRoot;
    TwoFixed(b2, p.logsBloom, p.prevRandao, number);
    var b3 := b2 + p.logsBloom + p.prevRandao;
    TwoFixed(b3, Le64(p.number), Le64(p.gasLimit), gas);
    TwoFixed(b3 + Le64(p.number) + Le64(p.gasLimit), Le64(p.gasUsed), Le64(p.timestamp), rest);
  }

  lemma TwoFixed(buf: Bytes, a: Bytes, b: Bytes, more: Parts)
    ensures Written(buf, Fixed(a, Fixed(b, more)), PAYLOAD_FIXED) == Written(buf + a + b, more, PAYLOAD_FIXED)
  {
  }

  lemma {:induction false} BackWritten(buf: Bytes, p: ExecutionPayload, txs: Bytes, wds: Bytes)
    ensures Written(buf, PayloadBack(p, txs, wds), PAYLOAD_FIXED)
         == BackBytes(buf, p, PAYLOAD_FIXED + |p.extraData|, PAYLOAD_FIXED + |p.extraData| + |txs|,
                      PAYLOAD_FIXED + |p.extraData| + |txs| + |wds|)
  {
    var x1 := PAYLOAD_FIXED + |p.extraData|;
    var x2, x3 := x1 + |txs|, x1 + |txs| + |wds|;
    var bal := Var(p.accessList, Fixed(Le64(p.slotNumber), End));
    var blob := Fixed(Le64(p.blobGasUsed), Fixed(Le64(p.excessBlobGas), bal));
    var lists := Var(txs, Var(wds, blob));
    var fee := Fixed(Le256(p.baseFee), Fixed(p.blockHash, lists));
    var b1 := buf + Le32(PAYLOAD_FIXED);
    assert Written(buf, Var(p.extraData, fee), PAYLOAD_FIXED) == Written(b1, fee, x1);
    var b2 := b1 + Le256(p.baseFee) + p.blockHash;
    assert Written(b1, fee, x1) == Written(b2, lists, x1);
    var b3 := b2 + Le32(x1) + Le32(x2);
    assert Written(b2, lists, x1) == Written(b3, blob, x3);
    var b4 := b3 + Le64(p.blobGasUsed) + Le64(p.excessBlobGas);
    assert Written(b3, blob, x3) == Written(b4, bal, x3);
    var b5 := b4 + Le32(x3);
    assert Written(b4, bal, x3) == Written(b5, bal.more, x3 + |p.accessList|);
    assert Written(b5, bal.more, x3 + |p.accessList|) == b5 + Le64(p.slotNumber);
  }

  lemma {:induction false} HeadWritten(p: ExecutionPayload, txs: Bytes, wds: Bytes)
    ensures Head(PayloadFront(p, PayloadBack(p, txs, wds)), PAYLOAD_FIXED)
         == BackBytes(FrontBytes(p), p, PAYLOAD_FIXED + |p.extraData|, PAYLOAD_FIXED + |p.extraData| + |txs|,
                      PAYLOAD_FIXED + |p.extraData| + |txs| + |wds|)
  {
    var back := PayloadBack(p, txs, wds);
    FrontWritten(p, back);
    BackWritten(FrontBytes(p), p, txs, wds);
    var h := Head(PayloadFront(p, back), PAYLOAD_FIXED);
    assert Written([], PayloadFront(p, back), PAYLOAD_FIXED) == [] + h == h by {
      WrittenIsHead([], PayloadFront(p, back), PAYLOAD_FIXED);
    }
  }

  /** The fixed region as the encoders build it: one buffer, and offsets that wrap on the way. */
  lemma {:induction false} PayloadWritten(p: ExecutionPayload, txs: Bytes, wds: Bytes, o1: u32, o2: u32, o3: u32)
    requires txs == ListBytes(p.transactions) && wds == WithdrawalsBytes(p.withdrawals)
    requires o1 == Wrap32(PAYLOAD_FIXED + |p.extraData|)
    requires o2 == Wrap32(o1 + Wrap32(|txs|))
    requires o3 == Wrap32(o2 + Wrap32(|wds|))
    ensures PayloadBytes(p) == BackBytes(FrontBytes(p), p, o1, o2, o3) + (p.extraData + (txs + (wds + p.accessList)))
  {
    var x1, buf := PAYLOAD_FIXED + |p.extraData|, FrontBytes(p);
    HeadWritten(p, txs, wds);
    assert BackBytes(buf, p, x1, x1 + |txs|, x1 + |txs| + |wds|) == BackBytes(buf, p, o1, o2, o3) by {
      WrappedOffsets(x1, |txs|, |wds|);
    }
    PayloadTail(p);
  }

  lemma WrappedOffsets(x1: nat, txs: nat, wds: nat)
    ensures var o1 := Wrap32(x1);
            var o2 := Wrap32(o1 + Wrap32(txs));
            var o3 := Wrap32(o2 + Wrap32(wds));
            Le32(o1) == Le32(x1) && Le32(o2) == Le32(x1 + txs) && Le32(o3) == Le32(x1 + txs + wds)
  {
    WrapAdd(x1, txs);
    WrapAdd(x1 + txs, wds);
    WrapIsInvisible(x1);
    WrapIsInvisible(x1 + txs);
    WrapIsInvisible(x1 + txs + wds);
  }

  lemma {:induction false} U256RoundTrip(v: u256, b: Bytes)
    requires |b| == 32
    ensures b == Le256(v) <==> FromLE(b) == v
  {
    Pow256Of32();
    LERead(W256.bytes, v);
    LEWrite(b);
  }

  lemma {:induction false} FromPartsInverse(ps: Parts, p: ExecutionPayload)
    requires FromParts(ps) == Some(p)
    ensures WellSized(p) && ListFits(p.transactions) && ps == PayloadParts(p)
  {
    match ps
    case Fixed(_, Fixed(_, Fixed(_, Fixed(_, Fixed(_, Fixed(_,
         Fixed(num, Fixed(limit, Fixed(used, Fixed(time, Var(_,
         Fixed(base, Fixed(_, Var(txs, Var(wds,
         Fixed(blob, Fixed(excess, Var(_, Fixed(slot, End))))))))))))))))))) =>
      DecodeListExactly(txs, p.transactions);
      DecodeWithdrawalsExactly(wds, p.withdrawals);
      U64RoundTrip(p.number, num);
      U64RoundTrip(p.gasLimit, limit);
      U64RoundTrip(p.gasUsed, used);
      U64RoundTrip(p.timestamp, time);
      U64RoundTrip(p.blobGasUsed, blob);
      U64RoundTrip(p.excessBlobGas, excess);
      U64RoundTrip(p.slotNumber, slot);
      U256RoundTrip(p.baseFee, base);
  }

  lemma {:induction false} FromPartsOfPayload(p: ExecutionPayload)
    requires WellSized(p) && ListFits(p.transactions)
    ensures FromParts(PayloadParts(p)) == Some(p)
  {
    DecodeListExactly(ListBytes(p.transactions), p.transactions);
    DecodeWithdrawalsExactly(WithdrawalsBytes(p.withdrawals), p.withdrawals);
    U64RoundTrip(p.number, Le64(p.number));
    U64RoundTrip(p.gasLimit, Le64(p.gasLimit));
    U64RoundTrip(p.gasUsed, Le64(p.gasUsed));
    U64RoundTrip(p.timestamp, Le64(p.timestamp));
    U64RoundTrip(p.blobGasUsed, Le64(p.blobGasUsed));
    U64RoundTrip(p.excessBlobGas, Le64(p.excessBlobGas));
    U64RoundTrip(p.slotNumber, Le64(p.slotNumber));
    U256RoundTrip(p.baseFee, Le256(p.baseFee));
  }

  /**
   * The reader returns `p` for exactly the bytes the encoders write for it, and only if the four
   * raw hash fields are 32 bytes each and no offset wraps.
   */
  lemma {:induction false} DecodePayloadExactly(b: Bytes, p: ExecutionPayload)
    ensures DecodePayload(b) == Some(p) <==> WellSized(p) && PayloadFits(p) && b == PayloadBytes(p)
  {
    var ps := Deserialize(PAYLOAD, b);
    if DecodePayload(b) == Some(p) {
      FromPartsInverse(ps.value, p);
    }
    if WellSized(p) {
      PayloadShape(p);
      DeserializeExactly(PAYLOAD, b, PayloadParts(p));
      if PayloadFits(p) {
        FromPartsOfPayload(p);
      }
    }
  }
}
