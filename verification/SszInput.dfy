/**
 * SszStatelessInput, behind its two-byte schema id: the whole of what a guest reads. Four levels
 * of containers and offset tables, with the strict reader for each.
 */
module SszInput {
  import opened Bytes
  import opened SszContainer
  import opened SszLists
  import opened SszRequests
  import opened SszPayload

  datatype Witness = Witness(state: seq<Bytes>, codes: seq<Bytes>, headers: seq<Bytes>)

  datatype NewPayloadRequest = NewPayloadRequest(
    payload: ExecutionPayload, versionedHashes: seq<Bytes32>, parentBeaconRoot: Bytes32, requests: seq<Bytes>)

  datatype StatelessInput = StatelessInput(
    fork: byte, chainId: u64, request: NewPayloadRequest, wit: Witness)

  const SCHEMA_REVISION := 1

  const WITNESS: Shapes := Offset(Offset(Offset(Done)))
  const REQUEST: Shapes := Offset(Offset(Inline(32, Offset(Done))))
  const INPUT: Shapes := Offset(Offset(Inline(8, Done)))

  function WitnessParts(w: Witness): Parts
  {
    Var(ListBytes(w.state), Var(ListBytes(w.codes), Var(ListBytes(w.headers), End)))
  }

  function WitnessBytes(w: Witness): Bytes
  {
    Serialize(WitnessParts(w))
  }

  function RequestsBytes(rs: seq<Bytes>): Bytes
  {
    ListBytes(RequestLists(rs))
  }

  function RequestParts(n: NewPayloadRequest): Parts
  {
    Var(PayloadBytes(n.payload), Var(HashesBytes(n.versionedHashes),
    Fixed(n.parentBeaconRoot, Var(RequestsBytes(n.requests), End))))
  }

  function RequestBytes(n: NewPayloadRequest): Bytes
  {
    Serialize(RequestParts(n))
  }

  function InputParts(x: StatelessInput): Parts
  {
    Var(RequestBytes(x.request), Var(WitnessBytes(x.wit), Fixed(Le64(x.chainId), End)))
  }

  function InputBytes(x: StatelessInput): Bytes
  {
    [x.fork, SCHEMA_REVISION] + Serialize(InputParts(x))
  }

  /** The inputs the formats can carry at all: hash-sized hashes and requests in EIP-7685 form. */
  predicate ValidInput(x: StatelessInput)
  {
    WellSized(x.request.payload) && ValidRequests(x.request.requests)
  }

  predicate WitnessFits(w: Witness)
  {
    Fits(WitnessParts(w)) && ListFits(w.state) && ListFits(w.codes) && ListFits(w.headers)
  }

  predicate RequestFits(n: NewPayloadRequest)
  {
    Fits(RequestParts(n)) && PayloadFits(n.payload) && ListFits(RequestLists(n.requests))
  }

  /** No offset of any table at any level wraps. */
  predicate InputFits(x: StatelessInput)
  {
    Fits(InputParts(x)) && RequestFits(x.request) && WitnessFits(x.wit)
  }

  function DecodeWitness(b: Bytes): Option<Witness>
  {
    match Deserialize(WITNESS, b)
    case Some(Var(state, Var(codes, Var(headers, End)))) =>
      var s, c, h := DecodeList(state), DecodeList(codes), DecodeList(headers);
      if s.Some? && c.Some? && h.Some? then Some(Witness(s.value, c.value, h.value)) else None
    case _ => None
  }

  function DecodeRequests(b: Bytes): Option<seq<Bytes>>
  {
    var ps := Deserialize(Offsets(REQUEST_TYPES), b);
    if ps.None? || |Payloads(ps.value)| != REQUEST_TYPES then None else Some(RequestsOf(Payloads(ps.value)))
  }

  function DecodeRequest(b: Bytes): Option<NewPayloadRequest>
  {
    match Deserialize(REQUEST, b)
    case Some(Var(payload, Var(hashes, Fixed(root, Var(requests, End))))) =>
      var p, vh, rs := DecodePayload(payload), DecodeHashes(hashes), DecodeRequests(requests);
      if p.Some? && vh.Some? && rs.Some? && |root| == 32
      then Some(NewPayloadRequest(p.value, vh.value, root, rs.value)) else None
    case _ => None
  }

  /** The strict reader of a guest input. */
  function DecodeInput(b: Bytes): Option<StatelessInput>
  {
    if |b| < 2 || b[1] != SCHEMA_REVISION then None
    else
      match Deserialize(INPUT, b[2..])
      case Some(Var(request, Var(wit, Fixed(chain, End)))) =>
        var n, w := DecodeRequest(request), DecodeWitness(wit);
        if n.Some? && w.Some? && |chain| == 8
        then Some(StatelessInput(b[0], ReadU64(chain), n.value, w.value)) else None
      case _ => None
  }

  // ---- The three outer containers, unrolled ----

  lemma {:induction false} WitnessLayout(s: Bytes, c: Bytes, h: Bytes)
    ensures var ps := Var(s, Var(c, Var(h, End)));
            && ShapesOf(ps) == WITNESS
            && Serialize(ps) == Le32(12) + (Le32(12 + |s|) + Le32(12 + |s| + |c|)) + (s + (c + h))
            && (Fits(ps) <==> 12 + |s| + |c| < TWO32)
  {
    var (o1, o2) := (12 + |s|, 12 + |s| + |c|);
    var last := Var(h, End);
    assert ShapesOf(last) == Offset(Done) && Tail(last) == h + [] && Head(last, o2) == Le32(o2) + [];
    assert OffsetsFit(last, o2) <==> o2 < TWO32;
    var two := Var(c, last);
    assert ShapesOf(two) == Offset(Offset(Done)) && Tail(two) == c + h && Head(two, o1) == Le32(o1) + Le32(o2);
    assert OffsetsFit(two, o1) <==> o1 < TWO32 && o2 < TWO32;
    assert FixedSize(Offset(Done)) == 4 && FixedSize(WITNESS) == 12;
    var ps := Var(s, two);
    assert Head(ps, 12) == Le32(12) + (Le32(o1) + Le32(o2)) && Tail(ps) == s + (c + h);
  }

  lemma {:induction false} RequestLayout(ep: Bytes, vh: Bytes, root: Bytes, er: Bytes)
    requires |root| == 32
    ensures var ps := Var(ep, Var(vh, Fixed(root, Var(er, End))));
            && ShapesOf(ps) == REQUEST
            && Serialize(ps) == Le32(44) + (Le32(44 + |ep|) + (root + Le32(44 + |ep| + |vh|))) + (ep + (vh + er))
            && (Fits(ps) <==> 44 + |ep| + |vh| < TWO32)
  {
    var (o1, o2) := (44 + |ep|, 44 + |ep| + |vh|);
    var last := Var(er, End);
    assert ShapesOf(last) == Offset(Done) && Tail(last) == er + [] && Head(last, o2) == Le32(o2) + [];
    assert OffsetsFit(last, o2) <==> o2 < TWO32;
    var fixed := Fixed(root, last);
    assert ShapesOf(fixed) == Inline(32, Offset(Done)) && Tail(fixed) == er && Head(fixed, o2) == root + Le32(o2);
    var two := Var(vh, fixed);
    assert ShapesOf(two) == Offset(Inline(32, Offset(Done))) && Tail(two) == vh + er;
    assert Head(two, o1) == Le32(o1) + (root + Le32(o2));
    assert OffsetsFit(two, o1) <==> o1 < TWO32 && o2 < TWO32;
    assert FixedSize(Offset(Done)) == 4 && FixedSize(Inline(32, Offset(Done))) == 36 && FixedSize(REQUEST) == 44;
    var ps := Var(ep, two);
    assert Head(ps, 44) == Le32(44) + (Le32(o1) + (root + Le32(o2))) && Tail(ps) == ep + (vh + er);
  }

  lemma {:induction false} InputLayout(npr: Bytes, wit: Bytes, chain: Bytes)
    requires |chain| == 8
    ensures var ps := Var(npr, Var(wit, Fixed(chain, End)));
            && ShapesOf(ps) == INPUT
            && Serialize(ps) == Le32(16) + (Le32(16 + |npr|) + chain) + (npr + wit)
            && (Fits(ps) <==> 16 + |npr| < TWO32)
  {
    var o1 := 16 + |npr|;
    var last := Fixed(chain, End);
    assert ShapesOf(last) == Inline(8, Done) && Tail(last) == [] && Head(last, o1 + |wit|) == chain + [];
    var two := Var(wit, last);
    assert ShapesOf(two) == Offset(Inline(8, Done)) && Tail(two) == wit + [] && Head(two, o1) == Le32(o1) + chain;
    assert OffsetsFit(last, o1 + |wit|);
    assert OffsetsFit(two, o1) <==> o1 < TWO32;
    assert FixedSize(Inline(8, Done)) == 8 && FixedSize(INPUT) == 16;
    var ps := Var(npr, two);
    assert Head(ps, 16) == Le32(16) + (Le32(o1) + chain) && Tail(ps) == npr + wit;
  }

  // ---- Level by level: what is read is what was written, and nothing else is accepted ----

  lemma {:induction false} DecodeWitnessExactly(b: Bytes, w: Witness)
    ensures DecodeWitness(b) == Some(w) <==> WitnessFits(w) && b == WitnessBytes(w)
  {
    DeserializeExactly(WITNESS, b, WitnessParts(w));
    WitnessLayout(ListBytes(w.state), ListBytes(w.codes), ListBytes(w.headers));
    match Deserialize(WITNESS, b)
    case Some(Var(state, Var(codes, Var(headers, End)))) =>
      DecodeListExactly(state, w.state);
      DecodeListExactly(codes, w.codes);
      DecodeListExactly(headers, w.headers);
    case _ =>
  }

  lemma {:induction false} DecodeRequestsExactly(b: Bytes, rs: seq<Bytes>)
    ensures DecodeRequests(b) == Some(rs)
       <==> ValidRequests(rs) && ListFits(RequestLists(rs)) && b == RequestsBytes(rs)
  {
    var ss, ls := Offsets(REQUEST_TYPES), RequestLists(rs);
    VarsLayout(ls);
    DeserializeExactly(ss, b, Vars(ls));
    RequestsRoundTrip(rs, ls);
    if DecodeRequests(b) == Some(rs) {
      var ps := Deserialize(ss, b).value;
      DeserializeExactly(ss, b, ps);
      OnlyVars(ps, REQUEST_TYPES);
      RequestsRoundTrip(rs, Payloads(ps));
    }
  }

  lemma {:induction false} DecodeRequestExactly(b: Bytes, n: NewPayloadRequest)
    ensures DecodeRequest(b) == Some(n)
       <==> WellSized(n.payload) && ValidRequests(n.requests) && RequestFits(n) && b == RequestBytes(n)
  {
    DeserializeExactly(REQUEST, b, RequestParts(n));
    RequestLayout(PayloadBytes(n.payload), HashesBytes(n.versionedHashes), n.parentBeaconRoot, RequestsBytes(n.requests));
    match Deserialize(REQUEST, b)
    case Some(Var(payload, Var(hashes, Fixed(root, Var(requests, End))))) =>
      DecodePayloadExactly(payload, n.payload);
      DecodeHashesExactly(hashes, n.versionedHashes);
      DecodeRequestsExactly(requests, n.requests);
    case _ =>
  }

  lemma {:induction false} DecodeInputBodyExactly(b: Bytes, x: StatelessInput)
    requires |b| >= 2 && b[0] == x.fork && b[1] == SCHEMA_REVISION
    ensures DecodeInput(b) == Some(x) <==> ValidInput(x) && InputFits(x) && b[2..] == Serialize(InputParts(x))
  {
    DeserializeExactly(INPUT, b[2..], InputParts(x));
    InputLayout(RequestBytes(x.request), WitnessBytes(x.wit), Le64(x.chainId));
    match Deserialize(INPUT, b[2..])
    case Some(Var(request, Var(wit, Fixed(chain, End)))) =>
      DecodeRequestExactly(request, x.request);
      DecodeWitnessExactly(wit, x.wit);
      if |chain| == 8 {
        U64RoundTrip(x.chainId, chain);
      }
    case _ =>
  }

  lemma {:induction false} SchemaBytes(b: Bytes, x: StatelessInput)
    ensures b == InputBytes(x)
       <==> |b| >= 2 && b[0] == x.fork && b[1] == SCHEMA_REVISION && b[2..] == Serialize(InputParts(x))
  {
    var body := Serialize(InputParts(x));
    if |b| >= 2 {
      assert b == [b[0], b[1]] + b[2..];
    }
    assert ([x.fork, SCHEMA_REVISION] + body)[2..] == body;
  }

  lemma {:induction false} SchemaRead(b: Bytes)
    requires DecodeInput(b).Some?
    ensures |b| >= 2 && b[0] == DecodeInput(b).value.fork && b[1] == SCHEMA_REVISION
  {
  }

  /**
   * Full nested round trip and canonicity: the reader returns `x` for exactly one byte string,
   * the one the encoders emit for `x`, and only if no offset at any of the four levels wraps.
   */
  lemma {:induction false} DecodeInputExactly(b: Bytes, x: StatelessInput)
    ensures DecodeInput(b) == Some(x) <==> ValidInput(x) && InputFits(x) && b == InputBytes(x)
  {
    SchemaBytes(b, x);
    if DecodeInput(b) == Some(x) {
      SchemaRead(b);
    }
    if |b| >= 2 && b[0] == x.fork && b[1] == SCHEMA_REVISION {
      DecodeInputBodyExactly(b, x);
    }
  }

  // ---- When two inputs have the same bytes ----

  lemma {:induction false} SameRequestIff(m: NewPayloadRequest, n: NewPayloadRequest)
    requires n == m.(payload := n.payload)
    ensures RequestBytes(m) == RequestBytes(n) <==> PayloadBytes(m.payload) == PayloadBytes(n.payload)
  {
    var vh, root, er := HashesBytes(m.versionedHashes), m.parentBeaconRoot, RequestsBytes(m.requests);
    var a, b := PayloadBytes(m.payload), PayloadBytes(n.payload);
    RequestLayout(a, vh, root, er);
    RequestLayout(b, vh, root, er);
    Cancel(Le32(44) + (Le32(44 + |a|) + (root + Le32(44 + |a| + |vh|))),
           Le32(44) + (Le32(44 + |b|) + (root + Le32(44 + |b| + |vh|))), a, b, vh + er);
  }

  lemma {:induction false} SameInputIff(x: StatelessInput, y: StatelessInput)
    requires y == x.(fork := y.fork, request := y.request)
    ensures InputBytes(x) == InputBytes(y) <==> x.fork == y.fork && RequestBytes(x.request) == RequestBytes(y.request)
  {
    var wit, chain := WitnessBytes(x.wit), Le64(x.chainId);
    var a, b := RequestBytes(x.request), RequestBytes(y.request);
    InputLayout(a, wit, chain);
    InputLayout(b, wit, chain);
    SchemaBytes(InputBytes(x), x);
    SchemaBytes(InputBytes(x), y);
    Cancel(Le32(16) + (Le32(16 + |a|) + chain), Le32(16) + (Le32(16 + |b|) + chain), a, b, wit);
  }

  // ---- When no offset wraps ----

  lemma {:induction false} RequestShort(n: NewPayloadRequest)
    requires WellSized(n.payload) && |RequestBytes(n)| < TWO32
    ensures RequestFits(n)
  {
    RequestLayout(PayloadBytes(n.payload), HashesBytes(n.versionedHashes), n.parentBeaconRoot, RequestsBytes(n.requests));
    ShortFits(Vars(RequestLists(n.requests)));
    PayloadShape(n.payload);
    ShortFits(PayloadParts(n.payload));
    PayloadTail(n.payload);
    ShortFits(Vars(n.payload.transactions));
  }

  /** The witness offsets, from the lengths of the witness items. */
  predicate WitnessSumsFit(w: Witness)
  {
    12 + ListSize(w.state) + ListSize(w.codes) < TWO32 && TableFits(w.headers)
  }

  lemma {:induction false} WitnessFitsClosedForm(w: Witness)
    ensures WitnessFits(w) <==> WitnessSumsFit(w)
  {
    ListLength(w.state);
    ListLength(w.codes);
    WitnessLayout(ListBytes(w.state), ListBytes(w.codes), ListBytes(w.headers));
    ListFitsClosedForm(w.headers);
    if 12 + ListSize(w.state) + ListSize(w.codes) < TWO32 {
      ShortFits(Vars(w.state));
      ShortFits(Vars(w.codes));
    }
  }

  /** The size of an encoded request whose hashes and execution requests are valid. */
  function RequestSize(n: NewPayloadRequest): int
  {
    44 + PayloadSize(n.payload) + 32 * |n.versionedHashes| + (20 + TotalLength(n.requests) - |n.requests|)
  }

  lemma {:induction false} RequestLength(n: NewPayloadRequest)
    requires WellSized(n.payload) && ValidRequests(n.requests)
    ensures |RequestBytes(n)| == RequestSize(n)
  {
    RequestLayout(PayloadBytes(n.payload), HashesBytes(n.versionedHashes), n.parentBeaconRoot, RequestsBytes(n.requests));
    PayloadLength(n.payload);
    HashesLength(n.versionedHashes);
    RequestsEncodedLength(n.requests);
  }

  /**
   * Three sums over the lengths of the input's own fields. The first covers the container and
   * everything inside the payload request, the other two the witness. The last header of the
   * witness is the only thing whose length no offset depends on.
   */
  predicate SumsFit(x: StatelessInput)
  {
    16 + RequestSize(x.request) < TWO32 && WitnessSumsFit(x.wit)
  }

  /** When the uint32 offsets of a whole input are right, for every input the formats can carry. */
  lemma {:induction false} InputFitsClosedForm(x: StatelessInput)
    ensures ValidInput(x) ==> (InputFits(x) <==> SumsFit(x))
  {
    if ValidInput(x) {
      RequestLength(x.request);
      InputLayout(RequestBytes(x.request), WitnessBytes(x.wit), Le64(x.chainId));
      WitnessFitsClosedForm(x.wit);
      if |RequestBytes(x.request)| < TWO32 {
        RequestShort(x.request);
      }
    }
  }

  /**
   * What an encoder writes for `x` reads back as `x` iff the four raw hashes are 32 bytes, the
   * requests are in EIP-7685 form and three sums over the lengths in `x` are below 2^32.
   */
  lemma {:induction false} ReadsBackIff(x: StatelessInput)
    ensures DecodeInput(InputBytes(x)) == Some(x) <==> ValidInput(x) && SumsFit(x)
  {
    DecodeInputExactly(InputBytes(x), x);
    InputFitsClosedForm(x);
  }

  /** A witness node of 2^32 bytes makes any input unreadable: the offset of the codes wraps. */
  lemma {:induction false} InputCanWrap(x: StatelessInput)
    ensures var y := x.(wit := Witness([Zeros(TWO32)], [], []));
            DecodeInput(InputBytes(y)) != Some(y)
  {
    var state := [Zeros(TWO32)];
    assert state[1..] == [] && TotalLength(state) == TWO32 + TotalLength([]);
    ReadsBackIff(x.(wit := Witness(state, [], [])));
  }

  /** In particular, an input shorter than 2^32 bytes always reads back. */
  lemma {:induction false} ShortInputRoundTrip(x: StatelessInput)
    requires ValidInput(x) && |InputBytes(x)| < TWO32
    ensures DecodeInput(InputBytes(x)) == Some(x)
  {
    InputLayout(RequestBytes(x.request), WitnessBytes(x.wit), Le64(x.chainId));
    WitnessLayout(ListBytes(x.wit.state), ListBytes(x.wit.codes), ListBytes(x.wit.headers));
    RequestLength(x.request);
    ListLength(x.wit.state);
    ListLength(x.wit.codes);
    ListLength(x.wit.headers);
    ReadsBackIff(x);
  }
}
