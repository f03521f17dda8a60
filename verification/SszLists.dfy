/** The list encodings of `fixture/encode_ssz.go` and their strict readers. */
module SszLists {
  import opened Bytes
  import opened SszContainer

  function Flat(items: seq<Bytes>): Bytes
  {
    if items == [] then [] else items[0] + Flat(items[1..])
  }

  // ---- Lists of variable-size elements: an offset table, then the elements ----

  function Vars(items: seq<Bytes>): Parts
  {
    if items == [] then End else Var(items[0], Vars(items[1..]))
  }

  function Payloads(ps: Parts): seq<Bytes>
  {
    if ps.End? then [] else [ps.bytes] + Payloads(ps.more)
  }

  function Offsets(n: nat): Shapes
  {
    if n == 0 then Done else Offset(Offsets(n - 1))
  }

  /** SSZ serializes a list of variable-size elements like a container of variable-size fields. */
  function ListBytes(items: seq<Bytes>): Bytes
  {
    Serialize(Vars(items))
  }

  predicate ListFits(items: seq<Bytes>)
  {
    Fits(Vars(items))
  }

  /** The element count is not stored: a reader takes it from the first offset. */
  function DecodeList(b: Bytes): Option<seq<Bytes>>
  {
    if b == [] then Some([])
    else if |b| < 4 then None
    else
      var first := FromLE(b[..4]);
      if first == 0 || first % 4 != 0 then None
      else
        var ps := Deserialize(Offsets(first / 4), b);
        if ps.None? then None else Some(Payloads(ps.value))
  }

  lemma {:induction false} VarsLayout(items: seq<Bytes>)
    ensures ShapesOf(Vars(items)) == Offsets(|items|) && FixedSize(Offsets(|items|)) == 4 * |items|
    ensures Tail(Vars(items)) == Flat(items)
    ensures Payloads(Vars(items)) == items
  {
    if items != [] {
      VarsLayout(items[1..]);
    }
  }

  lemma {:induction false} OnlyVars(ps: Parts, n: nat)
    requires ShapesOf(ps) == Offsets(n)
    ensures ps == Vars(Payloads(ps))
  {
    if n > 0 {
      OnlyVars(ps.more, n - 1);
      assert Payloads(ps)[1..] == Payloads(ps.more);
    }
  }

  /** The table begins with the offset of the first element. */
  lemma TableHead(items: seq<Bytes>, start: nat)
    requires items != []
    ensures Head(Vars(items), start) == Le32(start) + Head(Vars(items[1..]), start + |items[0]|)
    ensures |Flat(items)| == |items[0]| + |Flat(items[1..])|
  {
  }

  lemma {:induction false} TableSnoc(items: seq<Bytes>, item: Bytes, start: nat)
    ensures Head(Vars(items + [item]), start) == Head(Vars(items), start) + Le32(start + |Flat(items)|)
  {
    var more := items + [item];
    TableHead(more, start);
    if items == [] {
      assert more[1..] == [];
    } else {
      TableHead(items, start);
      TableSnoc(items[1..], item, start + |items[0]|);
      assert more[1..] == items[1..] + [item];
      Assoc(Le32(start), Head(Vars(items[1..]), start + |items[0]|), Le32(start + |Flat(items)|));
    }
  }

  lemma {:induction false} FlatStep(items: seq<Bytes>, i: nat)
    requires i < |items|
    ensures Flat(items[..i + 1]) == Flat(items[..i]) + items[i]
  {
    if i == 0 {
      assert items[..1] == [items[0]];
      assert Flat([items[0]]) == items[0] + Flat([]);
    } else {
      FlatStep(items[1..], i - 1);
      assert items[..i + 1][1..] == items[1..][..i] && items[..i][1..] == items[1..][..i - 1];
    }
  }

  /** One more element: its offset goes to the table, its bytes to the data, `off` moves on. */
  lemma {:induction false} TableStep(items: seq<Bytes>, i: nat, start: nat)
    requires i < |items|
    ensures Head(Vars(items[..i + 1]), start)
         == Head(Vars(items[..i]), start) + Le32(Wrap32(start + |Flat(items[..i])|))
    ensures Flat(items[..i + 1]) == Flat(items[..i]) + items[i]
    ensures Wrap32(start + |Flat(items[..i + 1])|)
         == Wrap32(Wrap32(start + |Flat(items[..i])|) + Wrap32(|items[i]|))
  {
    var front, item := items[..i], items[i];
    TableSnoc(front, item, start);
    assert items[..i + 1] == front + [item];
    FlatStep(items, i);
    WrapIsInvisible(start + |Flat(front)|);
    WrapAdd(start + |Flat(front)|, |item|);
  }

  /** `encodeSszByteListList`: `off` is a uint32 that wraps as it accumulates lengths. */
  method EncodeByteListList(items: seq<Bytes>) returns (r: Bytes)
    ensures r == ListBytes(items)
  {
    if |items| == 0 {
      return [];
    }
    var headerSize := 4 * |items|;
    var offsets: Bytes, data: Bytes, off := [], [], Wrap32(headerSize);
    for i := 0 to |items|
      invariant offsets == Head(Vars(items[..i]), headerSize)
      invariant data == Flat(items[..i])
      invariant off == Wrap32(headerSize + |data|)
    {
      TableStep(items, i, headerSize);
      offsets := offsets + Le32(off);
      data := data + items[i];
      off := Wrap32(off + Wrap32(|items[i]|));
    }
    assert items[..|items|] == items;
    assert ListBytes(items) == Head(Vars(items), headerSize) + Flat(items) by {
      VarsLayout(items);
    }
    r := offsets + data;
  }

  lemma {:induction false} AcceptedListIsCanonical(b: Bytes, items: seq<Bytes>)
    requires DecodeList(b) == Some(items)
    ensures ListFits(items) && b == ListBytes(items)
  {
    if b != [] {
      var n := FromLE(b[..4]) / 4;
      var ps := Deserialize(Offsets(n), b).value;
      DeserializeExactly(Offsets(n), b, ps);
      OnlyVars(ps, n);
    }
  }

  lemma {:induction false} FirstOffset(items: seq<Bytes>)
    requires ListFits(items) && items != []
    ensures |ListBytes(items)| >= 4 && FromLE(ListBytes(items)[..4]) == 4 * |items|
  {
    var b, n := ListBytes(items), 4 * |items|;
    VarsLayout(items);
    assert b == Le32(n) + Head(Vars(items[1..]), n + |items[0]|) + Tail(Vars(items));
    assert b[..4] == Le32(n);
    OffsetSurvives(n);
  }

  lemma {:induction false} EncodedListIsAccepted(items: seq<Bytes>)
    requires ListFits(items)
    ensures DecodeList(ListBytes(items)) == Some(items)
  {
    if items != [] {
      var b := ListBytes(items);
      FirstOffset(items);
      assert FromLE(b[..4]) / 4 == |items|;
      assert Deserialize(Offsets(|items|), b) == Some(Vars(items)) by {
        VarsLayout(items);
        DeserializeExactly(Offsets(|items|), b, Vars(items));
      }
      assert Payloads(Vars(items)) == items by {
        VarsLayout(items);
      }
    }
  }

  /**
   * Canonicity of the offset table: the strict reader returns `items` for exactly one byte
   * string, the one the encoder emits, and only if none of its offsets wrapped.
   */
  lemma {:induction false} DecodeListExactly(b: Bytes, items: seq<Bytes>)
    ensures DecodeList(b) == Some(items) <==> ListFits(items) && b == ListBytes(items)
  {
    if DecodeList(b) == Some(items) {
      AcceptedListIsCanonical(b, items);
    }
    if ListFits(items) {
      EncodedListIsAccepted(items);
    }
  }

  // ---- Sizes, from the inputs alone ----

  function TotalLength(items: seq<Bytes>): nat
  {
    if items == [] then 0 else |items[0]| + TotalLength(items[1..])
  }

  /** The size of an encoded list: one offset and the bytes of each item. */
  function ListSize(items: seq<Bytes>): nat
  {
    4 * |items| + TotalLength(items)
  }

  lemma {:induction false} FlatLength(items: seq<Bytes>)
    ensures |Flat(items)| == TotalLength(items)
  {
    if items != [] {
      FlatLength(items[1..]);
    }
  }

  lemma {:induction false} ListLength(items: seq<Bytes>)
    ensures |ListBytes(items)| == ListSize(items)
  {
    VarsLayout(items);
    FlatLength(items);
  }

  /** No offset of the list reaches 2^32; the last item may have any length. */
  predicate TableFits(items: seq<Bytes>)
  {
    items == [] || ListSize(items) - |items[|items| - 1]| < TWO32
  }

  lemma {:induction false} OffsetsFitClosedForm(items: seq<Bytes>, off: nat)
    requires items != []
    ensures OffsetsFit(Vars(items), off) <==> off + TotalLength(items) - |items[|items| - 1]| < TWO32
  {
    var rest := items[1..];
    if rest != [] {
      OffsetsFitClosedForm(rest, off + |items[0]|);
    } else {
      assert Vars(items) == Var(items[0], Vars([]));
    }
  }

  lemma {:induction false} ListFitsClosedForm(items: seq<Bytes>)
    ensures ListFits(items) <==> TableFits(items)
  {
    VarsLayout(items);
    if items != [] {
      OffsetsFitClosedForm(items, 4 * |items|);
    }
  }

  /**
   * The exact limit of the uint32 offsets: a list reads back iff four bytes per item, plus the
   * lengths of all items but the last, are less than 2^32.
   */
  lemma {:induction false} ListRoundTripIff(items: seq<Bytes>)
    ensures DecodeList(ListBytes(items)) == Some(items) <==> TableFits(items)
  {
    DecodeListExactly(ListBytes(items), items);
    ListFitsClosedForm(items);
  }

  /** A first item of 2^32 bytes wraps the offset of the second. */
  lemma {:induction false} ListCanWrap()
    ensures var items := [Zeros(TWO32), []];
            DecodeList(ListBytes(items)) != Some(items)
  {
    var items := [Zeros(TWO32), []];
    ListRoundTripIff(items);
    assert items[1..] == [[]] && TotalLength([[]]) == 0 + TotalLength([]);
    assert TotalLength(items) == TWO32;
  }

  /** A byte string is accepted iff it encodes some list that fits, and then only that one list. */
  lemma {:induction false} AcceptedIffUniqueEncoding(b: Bytes)
    ensures DecodeList(b).Some? <==> exists items :: ListFits(items) && b == ListBytes(items)
    ensures forall x, y :: ListFits(x) && ListFits(y) && ListBytes(x) == ListBytes(y) ==> x == y
  {
    if DecodeList(b).Some? {
      DecodeListExactly(b, DecodeList(b).value);
    }
    forall x | ListFits(x)
      ensures DecodeList(ListBytes(x)) == Some(x)
    {
      DecodeListExactly(ListBytes(x), x);
    }
  }

  // ---- Lists of fixed-size elements: the elements back to back ----

  datatype Withdrawal = Withdrawal(index: u64, validator: u64, address: Bytes20, amount: u64)

  const WITHDRAWAL_SIZE := 44

  function WithdrawalBytes(w: Withdrawal): (b: Bytes)
    ensures |b| == WITHDRAWAL_SIZE
  {
    Le64(w.index) + Le64(w.validator) + w.address + Le64(w.amount)
  }

  function ReadU64(b: Bytes): (v: u64)
    requires |b| == 8
    ensures FromLE(b) == v
  {
    FromLEBound(b);
    Pow256Widths();
    FromLE(b)
  }

  function ReadWithdrawal(b: Bytes): Withdrawal
    requires |b| == WITHDRAWAL_SIZE
  {
    Withdrawal(ReadU64(b[..8]), ReadU64(b[8..16]), b[16..36], ReadU64(b[36..]))
  }

  function WithdrawalsBytes(ws: seq<Withdrawal>): Bytes
  {
    if ws == [] then [] else WithdrawalBytes(ws[0]) + WithdrawalsBytes(ws[1..])
  }

  function DecodeWithdrawals(b: Bytes): Option<seq<Withdrawal>>
  {
    if b == [] then Some([])
    else if |b| < WITHDRAWAL_SIZE then None
    else
      var rest := DecodeWithdrawals(b[WITHDRAWAL_SIZE..]);
      if rest.None? then None else Some([ReadWithdrawal(b[..WITHDRAWAL_SIZE])] + rest.value)
  }

  lemma {:induction false} WithdrawalsAppend(ws: seq<Withdrawal>, w: Withdrawal)
    ensures WithdrawalsBytes(ws + [w]) == WithdrawalsBytes(ws) + WithdrawalBytes(w)
  {
    var more := ws + [w];
    if ws == [] {
      assert more[1..] == [];
      assert WithdrawalsBytes(more) == WithdrawalBytes(w) + [];
    } else {
      WithdrawalsAppend(ws[1..], w);
      assert more[0] == ws[0] && more[1..] == ws[1..] + [w];
      Assoc(WithdrawalBytes(ws[0]), WithdrawalsBytes(ws[1..]), WithdrawalBytes(w));
    }
  }

  /** `encodeSszWithdrawalList`. */
  method EncodeWithdrawalList(ws: seq<Withdrawal>) returns (buf: Bytes)
    ensures buf == WithdrawalsBytes(ws)
  {
    buf := [];
    for i := 0 to |ws|
      invariant buf == WithdrawalsBytes(ws[..i])
    {
      var w := ws[i];
      WithdrawalsAppend(ws[..i], w);
      assert ws[..i + 1] == ws[..i] + [w];
      buf := buf + (Le64(w.index) + Le64(w.validator) + w.address + Le64(w.amount));
    }
    assert ws[..|ws|] == ws;
  }

  lemma {:induction false} WithdrawalsLength(ws: seq<Withdrawal>)
    ensures |WithdrawalsBytes(ws)| == WITHDRAWAL_SIZE * |ws|
  {
    if ws != [] {
      WithdrawalsLength(ws[1..]);
    }
  }

  lemma {:induction false} WithdrawalExactly(b: Bytes, w: Withdrawal)
    requires |b| == WITHDRAWAL_SIZE
    ensures ReadWithdrawal(b) == w <==> b == WithdrawalBytes(w)
  {
    U64RoundTrip(w.index, b[..8]);
    U64RoundTrip(w.validator, b[8..16]);
    U64RoundTrip(w.amount, b[36..]);
    assert b == b[..8] + b[8..16] + b[16..36] + b[36..];
    var e := WithdrawalBytes(w);
    assert e[..8] == Le64(w.index) && e[8..16] == Le64(w.validator) && e[16..36] == w.address && e[36..] == Le64(w.amount);
  }

  lemma {:induction false} DecodeWithdrawalsExactly(b: Bytes, ws: seq<Withdrawal>)
    ensures DecodeWithdrawals(b) == Some(ws) <==> b == WithdrawalsBytes(ws)
  {
    if b != [] && ws != [] && |b| >= WITHDRAWAL_SIZE {
      var x, y := b[..WITHDRAWAL_SIZE], b[WITHDRAWAL_SIZE..];
      assert b == x + y && ws == [ws[0]] + ws[1..];
      WithdrawalExactly(x, ws[0]);
      DecodeWithdrawalsExactly(y, ws[1..]);
      if b == WithdrawalsBytes(ws) {
        assert x == WithdrawalBytes(ws[0]) && y == WithdrawalsBytes(ws[1..]);
      }
    }
  }

  /** A transaction, after `MarshalBinary`: its envelope bytes, or the error. */
  datatype Tx = Tx(kind: byte, envelope: Option<Bytes>, blobHashes: seq<Bytes32>)

  const BLOB_TX_TYPE := 3

  /** The versioned hashes of every blob transaction, in order. */
  function VersionedHashes(txs: seq<Tx>): seq<Bytes32>
  {
    if txs == [] then []
    else VersionedHashes(txs[..|txs| - 1]) +
         (if txs[|txs| - 1].kind == BLOB_TX_TYPE then txs[|txs| - 1].blobHashes else [])
  }

  /** Each transaction of type 0x03 contributes its hashes at its own place, any other none. */
  lemma {:induction false} HashesOfEach(before: seq<Tx>, tx: Tx, after: seq<Tx>)
    ensures VersionedHashes(before + [tx] + after)
         == VersionedHashes(before) + (if tx.kind == 0x03 then tx.blobHashes else []) + VersionedHashes(after)
  {
    var all := before + [tx] + after;
    if after == [] {
      assert all[..|all| - 1] == before && all[|all| - 1] == tx;
      assert VersionedHashes(after) == [];
    } else {
      var front := after[..|after| - 1];
      HashesOfEach(before, tx, front);
      assert all[..|all| - 1] == before + [tx] + front && all[|all| - 1] == after[|after| - 1];
    }
  }

  function HashesBytes(hs: seq<Bytes32>): Bytes
  {
    if hs == [] then [] else HashesBytes(hs[..|hs| - 1]) + hs[|hs| - 1]
  }

  function DecodeHashes(b: Bytes): Option<seq<Bytes32>>
  {
    if b == [] then Some([])
    else if |b| < 32 then None
    else
      var front := DecodeHashes(b[..|b| - 32]);
      if front.None? then None else Some(front.value + [b[|b| - 32..]])
  }

  /** `encodeSszVersionedHashes`. */
  method EncodeVersionedHashes(txs: seq<Tx>) returns (buf: Bytes)
    ensures buf == HashesBytes(VersionedHashes(txs))
  {
    buf := [];
    for i := 0 to |txs|
      invariant buf == HashesBytes(VersionedHashes(txs[..i]))
    {
      var tx := txs[i];
      assert txs[..i + 1][..i] == txs[..i];
      if tx.kind == BLOB_TX_TYPE {
        ghost var before := VersionedHashes(txs[..i]);
        assert before + tx.blobHashes[..0] == before;
        for j := 0 to |tx.blobHashes|
          invariant buf == HashesBytes(before + tx.blobHashes[..j])
        {
          assert (before + tx.blobHashes[..j + 1])[..|before| + j] == before + tx.blobHashes[..j];
          buf := buf + tx.blobHashes[j];
        }
        assert tx.blobHashes[..|tx.blobHashes|] == tx.blobHashes;
        assert VersionedHashes(txs[..i + 1]) == before + tx.blobHashes;
      } else {
        assert VersionedHashes(txs[..i + 1]) == VersionedHashes(txs[..i]) + [] == VersionedHashes(txs[..i]);
      }
    }
    assert txs[..|txs|] == txs;
  }

  lemma {:induction false} HashesLength(hs: seq<Bytes32>)
    ensures |HashesBytes(hs)| == 32 * |hs|
  {
    if hs != [] {
      HashesLength(hs[..|hs| - 1]);
    }
  }

  lemma {:induction false} DecodeHashesExactly(b: Bytes, hs: seq<Bytes32>)
    ensures DecodeHashes(b) == Some(hs) <==> b == HashesBytes(hs)
  {
    if b != [] && hs != [] && |b| >= 32 {
      var k, n := |b| - 32, |hs| - 1;
      assert b == b[..k] + b[k..] && hs == hs[..n] + [hs[n]];
      DecodeHashesExactly(b[..k], hs[..n]);
      if b == HashesBytes(hs) {
        assert b[..k] == HashesBytes(hs[..n]) && b[k..] == hs[n];
      }
    }
  }
}
