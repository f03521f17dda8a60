/** Where each field stands in the encoded bytes, at the byte positions the format fixes. */
module SszLayout {
  import opened Bytes
  import opened SszContainer
  import opened SszLists
  import opened SszPayload
  import opened SszInput

  /** The bytes `piece` stand at position `k` of `b`. */
  predicate At(b: Bytes, k: nat, piece: Bytes)
  {
    k + |piece| <= |b| && b[k..k + |piece|] == piece
  }

  /** Appending leaves everything where it was. */
  lemma {:induction false} Grow(buf: Bytes, piece: Bytes)
    ensures At(buf + piece, |buf|, piece)
    ensures forall j: nat, q: Bytes :: At(buf, j, q) ==> At(buf + piece, j, q)
  {
    forall j: nat, q: Bytes | At(buf, j, q)
      ensures At(buf + piece, j, q)
    {
      assert (buf + piece)[j..j + |q|] == buf[j..j + |q|];
    }
  }

  lemma SliceOfSlice(b: Bytes, k: nat, n: nat, j: nat, m: nat)
    requires k + n <= |b| && j + m <= n
    ensures b[k..k + n][j..j + m] == b[k + j..k + j + m]
  {
    var x, y := b[k..k + n][j..j + m], b[k + j..k + j + m];
    assert forall i :: 0 <= i < m ==> x[i] == y[i];
  }

  /** What stands in a section stands in whatever holds the section. */
  lemma {:induction false} Inside(outer: Bytes, k: nat, inner: Bytes)
    requires At(outer, k, inner)
    ensures forall j: nat, q: Bytes :: At(inner, j, q) ==> At(outer, k + j, q)
  {
    forall j: nat, q: Bytes | At(inner, j, q)
      ensures At(outer, k + j, q)
    {
      SliceOfSlice(outer, k, |inner|, j, |q|);
    }
  }

  lemma {:induction false} TailPositions(fix: Bytes, a: Bytes, b: Bytes, c: Bytes, d: Bytes)
    ensures var all := fix + (a + (b + (c + d)));
            && (forall j: nat, q: Bytes :: At(fix, j, q) ==> At(all, j, q))
            && At(all, |fix|, a) && At(all, |fix| + |a|, b)
            && At(all, |fix| + |a| + |b|, c) && At(all, |fix| + |a| + |b| + |c|, d)
  {
    Grow(fix, a);
    Grow(fix + a, b);
    Grow(fix + a + b, c);
    Grow(fix + a + b + c, d);
    assert fix + (a + (b + (c + d))) == fix + a + b + c + d;
  }

  // ---- Tables of places ----

  /** A table: which bytes stand where. */
  datatype Places = Nowhere | Place(at: nat, bytes: Bytes, more: Places)

  /** The table holds of `b`, positions counted from `k`. */
  predicate Stands(b: Bytes, k: nat, ps: Places)
  {
    match ps
    case Nowhere => true
    case Place(at, x, more) => At(b, k + at, x) && Stands(b, k, more)
  }

  /** The places of a fixed region that starts at `at`, its first variable-size field at `off`. */
  function FixedPlaces(ps: Parts, at: nat, off: nat, rest: Places): Places
  {
    match ps
    case End => rest
    case Fixed(x, more) => Place(at, x, FixedPlaces(more, at + |x|, off, rest))
    case Var(x, more) => Place(at, Le32(off), FixedPlaces(more, at + 4, off + |x|, rest))
  }

  function SectionPlaces(ps: Parts, off: nat): Places
  {
    match ps
    case End => Nowhere
    case Fixed(_, more) => SectionPlaces(more, off)
    case Var(x, more) => Place(off, x, SectionPlaces(more, off + |x|))
  }

  lemma {:induction false} AtSplit(b: Bytes, k: nat, x: Bytes, y: Bytes)
    requires At(b, k, x + y)
    ensures At(b, k, x) && At(b, k + |x|, y)
  {
    var n := |x| + |y|;
    SliceOfSlice(b, k, n, 0, |x|);
    SliceOfSlice(b, k, n, |x|, |y|);
    assert (x + y)[..|x|] == x && (x + y)[|x|..] == y;
    assert b[k..k + n] == x + y;
  }

  lemma {:induction false} InlineStands(b: Bytes, k: nat, x: Bytes, more: Parts, at: nat, off: nat, rest: Places)
    requires At(b, k + at, x) && Stands(b, k, FixedPlaces(more, at + |x|, off, rest))
    ensures Stands(b, k, FixedPlaces(Fixed(x, more), at, off, rest))
  {
  }

  lemma {:induction false} OffsetStands(b: Bytes, k: nat, x: Bytes, more: Parts, at: nat, off: nat, rest: Places)
    requires At(b, k + at, Le32(off)) && Stands(b, k, FixedPlaces(more, at + 4, off + |x|, rest))
    ensures Stands(b, k, FixedPlaces(Var(x, more), at, off, rest))
  {
  }

  lemma {:induction false} InlineSplit(b: Bytes, k: nat, x: Bytes, more: Parts, at: nat, off: nat)
    requires At(b, k + at, Head(Fixed(x, more), off))
    ensures At(b, k + at, x) && At(b, k + (at + |x|), Head(more, off))
  {
    AtSplit(b, k + at, x, Head(more, off));
  }

  lemma {:induction false} OffsetSplit(b: Bytes, k: nat, x: Bytes, more: Parts, at: nat, off: nat)
    requires At(b, k + at, Head(Var(x, more), off))
    ensures At(b, k + at, Le32(off)) && At(b, k + (at + 4), Head(more, off + |x|))
  {
    AtSplit(b, k + at, Le32(off), Head(more, off + |x|));
  }

  lemma {:induction false} FixedStands(b: Bytes, k: nat, ps: Parts, at: nat, off: nat, rest: Places)
    requires At(b, k + at, Head(ps, off)) && Stands(b, k, rest)
    ensures Stands(b, k, FixedPlaces(ps, at, off, rest))
    decreases ps, 0
  {
    match ps
    case End =>
    case Fixed(x, more) => InlineFirst(b, k, x, more, at, off, rest);
    case Var(x, more) => OffsetFirst(b, k, x, more, at, off, rest);
  }

  lemma {:induction false} InlineFirst(b: Bytes, k: nat, x: Bytes, more: Parts, at: nat, off: nat, rest: Places)
    requires At(b, k + at, Head(Fixed(x, more), off)) && Stands(b, k, rest)
    ensures Stands(b, k, FixedPlaces(Fixed(x, more), at, off, rest))
    decreases more, 1
  {
    InlineSplit(b, k, x, more, at, off);
    FixedStands(b, k, more, at + |x|, off, rest);
    InlineStands(b, k, x, more, at, off, rest);
  }

  lemma {:induction false} OffsetFirst(b: Bytes, k: nat, x: Bytes, more: Parts, at: nat, off: nat, rest: Places)
    requires At(b, k + at, Head(Var(x, more), off)) && Stands(b, k, rest)
    ensures Stands(b, k, FixedPlaces(Var(x, more), at, off, rest))
    decreases more, 1
  {
    OffsetSplit(b, k, x, more, at, off);
    FixedStands(b, k, more, at + 4, off + |x|, rest);
    OffsetStands(b, k, x, more, at, off, rest);
  }

  lemma {:induction false} SectionsStand(b: Bytes, k: nat, ps: Parts, off: nat)
    requires At(b, k + off, Tail(ps))
    ensures Stands(b, k, SectionPlaces(ps, off))
  {
    match ps
    case End =>
    case Fixed(_, more) => SectionsStand(b, k, more, off);
    case Var(x, more) =>
      AtSplit(b, k + off, x, Tail(more));
      SectionsStand(b, k, more, off + |x|);
  }

  // ---- The payload ----

  /** All nineteen fields and the four sections, from the field bytes. */
  function PayloadTable(
    parent: Bytes, fee: Bytes, state: Bytes, receipts: Bytes, bloom: Bytes, randao: Bytes,
    number: Bytes, limit: Bytes, used: Bytes, time: Bytes, back: Places): Places
  {
    Place(0, parent, Place(32, fee, Place(52, state, Place(84, receipts, Place(116, bloom, Place(372, randao,
    Place(404, number, Place(412, limit, Place(420, used, Place(428, time, back))))))))))
  }

  function BackTable(
    extra: Bytes, base: Bytes, hash: Bytes, txs: Bytes, wds: Bytes, blob: Bytes, excess: Bytes, bal: Bytes,
    slot: Bytes): Places
  {
    var x1 := 540 + |extra|;
    var (x2, x3) := (x1 + |txs|, x1 + |txs| + |wds|);
    Place(436, Le32(540), Place(440, base, Place(472, hash, Place(504, Le32(x1), Place(508, Le32(x2),
    Place(512, blob, Place(520, excess, Place(528, Le32(x3), Place(532, slot,
    Place(540, extra, Place(x1, txs, Place(x2, wds, Place(x3, bal, Nowhere)))))))))))))
  }

  /** The table of a hash-sized payload. */
  function PlacesOf(p: ExecutionPayload): Places
  {
    PayloadTable(
      p.parentHash, p.feeRecipient, p.stateRoot, p.receiptsRoot, p.logsBloom, p.prevRandao,
      Le64(p.number), Le64(p.gasLimit), Le64(p.gasUsed), Le64(p.timestamp),
      BackTable(p.extraData, Le256(p.baseFee), p.blockHash, ListBytes(p.transactions), WithdrawalsBytes(p.withdrawals),
                Le64(p.blobGasUsed), Le64(p.excessBlobGas), p.accessList, Le64(p.slotNumber)))
  }

  lemma TwoFixedPlaces(a: Bytes, b: Bytes, more: Parts, at: nat, off: nat, rest: Places)
    ensures FixedPlaces(Fixed(a, Fixed(b, more)), at, off, rest)
         == Place(at, a, Place(at + |a|, b, FixedPlaces(more, at + |a| + |b|, off, rest)))
  {
  }

  lemma {:induction false} BackPlaces(p: ExecutionPayload, txs: Bytes, wds: Bytes)
    ensures FixedPlaces(PayloadBack(p, txs, wds), 436, 540, SectionPlaces(PayloadBack(p, txs, wds), 540))
         == BackTable(p.extraData, Le256(p.baseFee), p.blockHash, txs, wds,
                      Le64(p.blobGasUsed), Le64(p.excessBlobGas), p.accessList, Le64(p.slotNumber))
  {
    var x1 := 540 + |p.extraData|;
    var (x2, x3) := (x1 + |txs|, x1 + |txs| + |wds|);
    var slot := Fixed(Le64(p.slotNumber), End);
    var bal := Var(p.accessList, slot);
    var blob := Fixed(Le64(p.blobGasUsed), Fixed(Le64(p.excessBlobGas), bal));
    var lists := Var(txs, Var(wds, blob));
    var ps := Var(p.extraData, Fixed(Le256(p.baseFee), Fixed(p.blockHash, lists)));
    assert ps == PayloadBack(p, txs, wds);
    assert SectionPlaces(bal, x3) == Place(x3, p.accessList, SectionPlaces(slot, x3 + |p.accessList|));
    assert SectionPlaces(slot, x3 + |p.accessList|) == Nowhere;
    assert SectionPlaces(blob, x3) == SectionPlaces(bal, x3);
    assert SectionPlaces(lists, x1) == Place(x1, txs, Place(x2, wds, SectionPlaces(blob, x3)));
    assert SectionPlaces(ps.more, x1) == SectionPlaces(lists, x1);
    assert SectionPlaces(ps, 540) == Place(540, p.extraData, SectionPlaces(lists, x1));
    var rest := SectionPlaces(ps, 540);
    assert FixedPlaces(slot, 532, x3 + |p.accessList|, rest) == Place(532, Le64(p.slotNumber), rest);
    assert FixedPlaces(bal, 528, x3, rest) == Place(528, Le32(x3), FixedPlaces(slot, 532, x3 + |p.accessList|, rest));
    TwoFixedPlaces(Le64(p.blobGasUsed), Le64(p.excessBlobGas), bal, 512, x3, rest);
    assert FixedPlaces(lists, 504, x1, rest)
        == Place(504, Le32(x1), Place(508, Le32(x2), FixedPlaces(blob, 512, x3, rest)));
    TwoFixedPlaces(Le256(p.baseFee), p.blockHash, lists, 440, x1, rest);
    assert FixedPlaces(ps, 436, 540, rest) == Place(436, Le32(540), FixedPlaces(ps.more, 440, x1, rest));
  }

  lemma {:induction false} FrontPlaces(p: ExecutionPayload, back: Parts, rest: Places)
    requires WellSized(p)
    ensures FixedPlaces(PayloadFront(p, back), 0, 540, rest)
         == PayloadTable(p.parentHash, p.feeRecipient, p.stateRoot, p.receiptsRoot, p.logsBloom, p.prevRandao,
                         Le64(p.number), Le64(p.gasLimit), Le64(p.gasUsed), Le64(p.timestamp),
                         FixedPlaces(back, 436, 540, rest))
  {
    var used := Fixed(Le64(p.gasUsed), Fixed(Le64(p.timestamp), back));
    var number := Fixed(Le64(p.number), Fixed(Le64(p.gasLimit), used));
    var bloom := Fixed(p.logsBloom, Fixed(p.prevRandao, number));
    var roots := Fixed(p.stateRoot, Fixed(p.receiptsRoot, bloom));
    TwoFixedPlaces(p.parentHash, p.feeRecipient, roots, 0, 540, rest);
    TwoFixedPlaces(p.stateRoot, p.receiptsRoot, bloom, 52, 540, rest);
    TwoFixedPlaces(p.logsBloom, p.prevRandao, number, 116, 540, rest);
    TwoFixedPlaces(Le64(p.number), Le64(p.gasLimit), used, 404, 540, rest);
    TwoFixedPlaces(Le64(p.gasUsed), Le64(p.timestamp), back, 420, 540, rest);
  }

  lemma {:induction false} FrontSections(p: ExecutionPayload, back: Parts)
    ensures SectionPlaces(PayloadFront(p, back), 540) == SectionPlaces(back, 540)
  {
    var used := Fixed(Le64(p.gasUsed), Fixed(Le64(p.timestamp), back));
    assert SectionPlaces(used, 540) == SectionPlaces(back, 540);
    var number := Fixed(Le64(p.number), Fixed(Le64(p.gasLimit), used));
    assert SectionPlaces(number, 540) == SectionPlaces(used, 540);
    var bloom := Fixed(p.logsBloom, Fixed(p.prevRandao, number));
    assert SectionPlaces(bloom, 540) == SectionPlaces(number, 540);
    var roots := Fixed(p.stateRoot, Fixed(p.receiptsRoot, bloom));
    assert SectionPlaces(roots, 540) == SectionPlaces(bloom, 540);
  }

  /** Wherever a hash-sized payload stands, its fields stand at the positions of the table. */
  lemma {:induction false} PayloadStands(b: Bytes, k: nat, p: ExecutionPayload)
    requires WellSized(p) && At(b, k, PayloadBytes(p))
    ensures Stands(b, k, PlacesOf(p))
  {
    var txs, wds, ps := ListBytes(p.transactions), WithdrawalsBytes(p.withdrawals), PayloadParts(p);
    PayloadShape(p);
    AtSplit(b, k, Head(ps, PAYLOAD_FIXED), Tail(ps));
    SectionsStand(b, k, ps, 540);
    FixedStands(b, k, ps, 0, 540, SectionPlaces(ps, 540));
    FrontSections(p, PayloadBack(p, txs, wds));
    FrontPlaces(p, PayloadBack(p, txs, wds), SectionPlaces(ps, 540));
    BackPlaces(p, txs, wds);
  }

  // ---- The containers around it ----

  /** Four pieces of a fixed region, then three sections. */
  lemma {:induction false} Sections(a: Bytes, b: Bytes, c: Bytes, d: Bytes, x: Bytes, y: Bytes, z: Bytes)
    ensures var s := a + (b + (c + d)) + (x + (y + z));
            var n := |a| + |b| + |c| + |d|;
            && At(s, 0, a) && At(s, |a|, b) && At(s, |a| + |b|, c) && At(s, |a| + |b| + |c|, d)
            && At(s, n, x) && At(s, n + |x|, y) && At(s, n + |x| + |y|, z)
  {
    var fix, n := a + b + c + d, |a| + |b| + |c| + |d|;
    assert fix == a + (b + (c + d)) && |fix| == n;
    assert At(fix, 0, a) && At(fix, |a|, b) && At(fix, |a| + |b|, c) && At(fix, |a| + |b| + |c|, d);
    TailPositions(fix, x, y, z, []);
    assert x + (y + (z + [])) == x + (y + z);
  }

  /** The sections of a request. */
  lemma {:induction false} RequestPositions(n: NewPayloadRequest)
    ensures var b, ep, vh := RequestBytes(n), PayloadBytes(n.payload), HashesBytes(n.versionedHashes);
            && At(b, 0, Le32(44)) && At(b, 4, Le32(44 + |ep|)) && At(b, 8, n.parentBeaconRoot)
            && At(b, 40, Le32(44 + |ep| + |vh|)) && At(b, 44, ep) && At(b, 44 + |ep|, vh)
            && At(b, 44 + |ep| + |vh|, RequestsBytes(n.requests))
  {
    var ep, vh, er := PayloadBytes(n.payload), HashesBytes(n.versionedHashes), RequestsBytes(n.requests);
    RequestLayout(ep, vh, n.parentBeaconRoot, er);
    Sections(Le32(44), Le32(44 + |ep|), n.parentBeaconRoot, Le32(44 + |ep| + |vh|), ep, vh, er);
  }

  lemma {:induction false} SchemaInFront(all: Bytes, s: Bytes, a: Bytes, b: Bytes, c: Bytes, x: Bytes, y: Bytes)
    requires all == s + (a + (b + c) + (x + y))
    ensures var n := |s| + |a| + |b| + |c|;
            && At(all, 0, s) && At(all, |s|, a) && At(all, |s| + |a|, b) && At(all, |s| + |a| + |b|, c)
            && At(all, n, x) && At(all, n + |x|, y)
  {
    assert all == s + (a + (b + c)) + (x + (y + []));
    Sections(s, a, b, c, x, y, []);
  }

  /** The sections of an input; 0x01 is the only schema revision. */
  lemma {:induction false} InputPositions(x: StatelessInput)
    ensures var b, npr := InputBytes(x), RequestBytes(x.request);
            && At(b, 0, [x.fork, 0x01]) && At(b, 2, Le32(16)) && At(b, 6, Le32(16 + |npr|))
            && At(b, 10, Le64(x.chainId)) && At(b, 18, npr) && At(b, 18 + |npr|, WitnessBytes(x.wit))
  {
    var npr, wit, chain := RequestBytes(x.request), WitnessBytes(x.wit), Le64(x.chainId);
    InputSplit(x);
    InputIn(InputBytes(x), [x.fork, 0x01], Le32(16), Le32(16 + |npr|), chain, npr, wit);
  }

  lemma {:induction false} InputSplit(x: StatelessInput)
    ensures var npr, wit := RequestBytes(x.request), WitnessBytes(x.wit);
            InputBytes(x) == [x.fork, 0x01] + (Le32(16) + (Le32(16 + |npr|) + Le64(x.chainId)) + (npr + wit))
  {
    InputLayout(RequestBytes(x.request), WitnessBytes(x.wit), Le64(x.chainId));
  }

  lemma {:induction false} InputIn(all: Bytes, s: Bytes, a: Bytes, b: Bytes, c: Bytes, x: Bytes, y: Bytes)
    requires |s| == 2 && |a| == |b| == 4 && |c| == 8 && all == s + (a + (b + c) + (x + y))
    ensures At(all, 0, s) && At(all, 2, a) && At(all, 6, b) && At(all, 10, c) && At(all, 18, x) && At(all, 18 + |x|, y)
  {
    SchemaInFront(all, s, a, b, c, x, y);
  }

  /** Beacon root and payload, counted from the start of the whole input. */
  lemma {:induction false} NestedPositions(x: StatelessInput)
    ensures At(InputBytes(x), 26, x.request.parentBeaconRoot) && At(InputBytes(x), 62, PayloadBytes(x.request.payload))
  {
    InputPositions(x);
    RequestPositions(x.request);
    Inside(InputBytes(x), 18, RequestBytes(x.request));
  }
}
