/**
 * The zesu-zkvm file framing, computed in closed form by `ZkvmFrame` and by a padding loop in
 * `ZesuInputBinary`, and the legacy binary content layout the latter frames.
 */
module Framing {
  import opened Bytes

  /** Bytes missing to a multiple of 8. */
  function Pad(n: nat): (k: nat)
    ensures k < 8 && (n + k) % 8 == 0
  {
    (8 - n % 8) % 8
  }

  /** Length header, payload, zero padding. */
  function Frame(payload: Bytes): Bytes
  {
    Le64(|payload|) + payload + Zeros(Pad(|payload|))
  }

  /** A guest's view: the header says how much of the padded file is the payload. */
  function Unframe(b: Bytes): Option<Bytes>
  {
    if |b| < 8 then None
    else
      var n := FromLE(b[..8]);
      if |b| == 8 + n + Pad(n) && b[8 + n..] == Zeros(Pad(n)) then Some(b[8..8 + n]) else None
  }

  /** `copy(dst[at:], src)`. */
  method CopyInto(dst: array<byte>, at: nat, src: Bytes)
    requires at + |src| <= dst.Length
    modifies dst
    ensures dst[..] == old(dst[..at]) + src + old(dst[at + |src|..])
  {
    for i := 0 to |src|
      invariant dst[..at + i] == old(dst[..at]) + src[..i]
      invariant dst[at + i..] == old(dst[at + i..])
    {
      dst[at + i] := src[i];
    }
    assert dst[..] == dst[..at + |src|] + dst[at + |src|..];
  }

  lemma AlignUp(n: nat)
    ensures (n + 7) - (n + 7) % 8 == n + Pad(n)
  {
  }

  /** `ZkvmFrame`: `&^ 7` clears the low three bits of the length plus seven. */
  method ZkvmFrame(ssz: Bytes) returns (r: Bytes)
    ensures r == Frame(ssz)
  {
    var n := |ssz| + 7;
    var out := new byte[8 + (n - n % 8)](_ => 0);
    AlignUp(|ssz|);
    ghost var zeros := out[..];
    assert forall i :: 0 <= i < |zeros| ==> zeros[i] == 0;
    var header := Le64(|ssz|);
    CopyInto(out, 0, header);
    assert out[..] == header + zeros[8..];
    CopyInto(out, 8, ssz);
    assert out[..] == header + ssz + zeros[8 + |ssz|..];
    assert zeros[8 + |ssz|..] == Zeros(Pad(|ssz|));
    r := out[..];
  }

  /** The framing at the end of `ZesuInputBinary`: append zeros until the length is a multiple of 8. */
  method FrameByLoop(content: Bytes) returns (out: Bytes)
    ensures out == Frame(content)
  {
    var payload := content;
    var contentLen := |payload|;
    while |payload| % 8 != 0
      invariant contentLen <= |payload| <= contentLen + Pad(contentLen)
      invariant payload == content + Zeros(|payload| - contentLen)
      decreases contentLen + Pad(contentLen) - |payload|
    {
      payload := payload + [0];
    }
    assert |payload| == contentLen + Pad(contentLen);
    out := Le64(contentLen);
    out := out + payload;
  }

  lemma {:induction false} FrameSections(payload: Bytes)
    ensures var f, n := Frame(payload), |payload|;
            |f| == 8 + n + Pad(n) && f[..8] == Le64(n) && f[8..8 + n] == payload && f[8 + n..] == Zeros(Pad(n))
    ensures |Frame(payload)| % 8 == 0 && |Frame(payload)| < 16 + |payload|
  {
    var k := Pad(|payload|);
    ThreeParts(Le64(|payload|), payload, Zeros(k));
    assert (8 + |payload| + k) % 8 == (|payload| + k) % 8;
  }

  lemma {:induction false} FrameRead(payload: Bytes)
    requires |payload| < TWO64
    ensures Unframe(Frame(payload)) == Some(payload)
  {
    FrameSections(payload);
    Header64Survives(|payload|);
  }

  lemma {:induction false} FrameWrite(b: Bytes)
    requires Unframe(b).Some?
    ensures |Unframe(b).value| < TWO64 && b == Frame(Unframe(b).value)
  {
    var n := FromLE(b[..8]);
    Header64Read(b[..8]);
    assert b == b[..8] + b[8..8 + n] + b[8 + n..];
  }

  /**
   * Every frame is aligned with less than a word of padding, and the reader recovers exactly the
   * payload, from exactly one file, as long as the length fits its 64-bit header.
   */
  lemma {:induction false} UnframeExactly(b: Bytes, payload: Bytes)
    ensures Unframe(b) == Some(payload) <==> |payload| < TWO64 && b == Frame(payload)
    ensures |Frame(payload)| % 8 == 0 && |Frame(payload)| < 16 + |payload|
  {
    FrameSections(payload);
    if |payload| < TWO64 {
      FrameRead(payload);
    }
    if Unframe(b) == Some(payload) {
      FrameWrite(b);
    }
  }

  // ---- The legacy binary content ----

  datatype Content = Content(
    blockRlp: Bytes, state: seq<Bytes>, codes: seq<Bytes>, keys: seq<Bytes>, headers: seq<Bytes>)

  function ItemBytes(x: Bytes): Bytes
  {
    Be64(|x|) + x
  }

  function ItemsBytes(xs: seq<Bytes>): Bytes
  {
    if xs == [] then [] else ItemBytes(xs[0]) + ItemsBytes(xs[1..])
  }

  function ArrayBytes(xs: seq<Bytes>): Bytes
  {
    Be64(|xs|) + ItemsBytes(xs)
  }

  function ContentBytes(c: Content): Bytes
  {
    Zeros(32) + (ItemBytes(c.blockRlp) +
    (ArrayBytes(c.state) + (ArrayBytes(c.codes) + (ArrayBytes(c.keys) + (ArrayBytes(c.headers) + [])))))
  }

  predicate ArrayFits(xs: seq<Bytes>)
  {
    |xs| < TWO64 && AllFit(xs)
  }

  predicate ContentFits(c: Content)
  {
    |c.blockRlp| < TWO64 && ArrayFits(c.state) && ArrayFits(c.codes) && ArrayFits(c.keys) && ArrayFits(c.headers)
  }

  datatype Parsed<T> = Failed | Parsed(value: T, rest: Bytes)

  function ParseItem(b: Bytes): Parsed<Bytes>
  {
    if |b| < 8 then Failed
    else
      var n := FromBE(b[..8]);
      if 8 + n <= |b| then Parsed(b[8..8 + n], b[8 + n..]) else Failed
  }

  function ParseItems(n: nat, b: Bytes): Parsed<seq<Bytes>>
  {
    if n == 0 then Parsed([], b)
    else
      var x := ParseItem(b);
      if x.Failed? then Failed
      else
        var xs := ParseItems(n - 1, x.rest);
        if xs.Failed? then Failed else Parsed([x.value] + xs.value, xs.rest)
  }

  function ParseArray(b: Bytes): Parsed<seq<Bytes>>
  {
    if |b| < 8 then Failed else ParseItems(FromBE(b[..8]), b[8..])
  }

  /** Reads a whole content: the placeholder root, the block, four arrays, and nothing after. */
  function ParseContent(b: Bytes): Option<Content>
  {
    if |b| < 32 || b[..32] != Zeros(32) then None
    else
      var rlp := ParseItem(b[32..]);
      if rlp.Failed? then None else
      var state := ParseArray(rlp.rest);
      if state.Failed? then None else
      var codes := ParseArray(state.rest);
      if codes.Failed? then None else
      var keys := ParseArray(codes.rest);
      if keys.Failed? then None else
      var headers := ParseArray(keys.rest);
      if headers.Failed? || headers.rest != [] then None
      else Some(Content(rlp.value, state.value, codes.value, keys.value, headers.value))
  }

  lemma {:induction false} ItemsAppend(xs: seq<Bytes>, x: Bytes)
    ensures ItemsBytes(xs + [x]) == ItemsBytes(xs) + ItemBytes(x)
  {
    if xs == [] {
      assert ItemsBytes([x]) == ItemBytes(x) + ItemsBytes([]);
    } else {
      ItemsAppend(xs[1..], x);
      assert (xs + [x])[1..] == xs[1..] + [x];
    }
  }

  /** `writeBinaryArray`. */
  method WriteBinaryArray(buf: Bytes, items: seq<Bytes>) returns (r: Bytes)
    ensures r == buf + ArrayBytes(items)
  {
    r := buf + Be64(|items|);
    for i := 0 to |items|
      invariant r == buf + (Be64(|items|) + ItemsBytes(items[..i]))
    {
      ItemsAppend(items[..i], items[i]);
      assert items[..i + 1] == items[..i] + [items[i]];
      r := r + Be64(|items[i]|);
      r := r + items[i];
      assert r == buf + (Be64(|items|) + (ItemsBytes(items[..i]) + ItemBytes(items[i])));
    }
    assert items[..|items|] == items;
  }

  /** `ZesuInputBinary`, from the RLP block and the decoded witness arrays on. */
  method ZesuInputBinary(c: Content) returns (out: Bytes)
    ensures out == Frame(ContentBytes(c))
  {
    var content: Bytes := Zeros(32);
    content := content + Be64(|c.blockRlp|);
    content := content + c.blockRlp;
    content := WriteBinaryArray(content, c.state);
    content := WriteBinaryArray(content, c.codes);
    content := WriteBinaryArray(content, c.keys);
    content := WriteBinaryArray(content, c.headers);
    SixSections(Zeros(32), Be64(|c.blockRlp|), c.blockRlp,
                ArrayBytes(c.state), ArrayBytes(c.codes), ArrayBytes(c.keys), ArrayBytes(c.headers));
    out := FrameByLoop(content);
  }

  lemma SixSections(z: Bytes, n: Bytes, x: Bytes, a: Bytes, b: Bytes, c: Bytes, d: Bytes)
    ensures z + n + x + a + b + c + d == z + ((n + x) + (a + (b + (c + (d + [])))))
  {
  }

  lemma {:induction false} ItemExactly(b: Bytes, x: Bytes, rest: Bytes)
    ensures ParseItem(b) == Parsed(x, rest) <==> |x| < TWO64 && b == ItemBytes(x) + rest
  {
    var n, e := |x|, ItemBytes(x) + rest;
    assert e[..8] == Be64(n) && e[8..8 + n] == x && e[8 + n..] == rest;
    Header64Survives(n);
    if ParseItem(b) == Parsed(x, rest) {
      Header64Read(b[..8]);
      assert b == b[..8] + b[8..8 + n] + b[8 + n..];
    }
  }

  predicate AllFit(xs: seq<Bytes>)
  {
    forall i :: 0 <= i < |xs| ==> |xs[i]| < TWO64
  }

  lemma {:induction false} ItemsRead(xs: seq<Bytes>, rest: Bytes)
    requires AllFit(xs)
    ensures ParseItems(|xs|, ItemsBytes(xs) + rest) == Parsed(xs, rest)
  {
    if xs == [] {
      assert ItemsBytes(xs) + rest == rest;
    } else {
      var after := ItemsBytes(xs[1..]) + rest;
      assert ItemsBytes(xs) + rest == ItemBytes(xs[0]) + after;
      ItemExactly(ItemBytes(xs[0]) + after, xs[0], after);
      ItemsRead(xs[1..], rest);
      assert |xs[1..]| == |xs| - 1 && [xs[0]] + xs[1..] == xs;
    }
  }

  lemma {:induction false} ItemsWrite(n: nat, b: Bytes)
    requires ParseItems(n, b).Parsed?
    ensures var r := ParseItems(n, b);
            |r.value| == n && AllFit(r.value) && b == ItemsBytes(r.value) + r.rest
  {
    if n > 0 {
      var x, r := ParseItem(b), ParseItems(n, b);
      ItemExactly(b, x.value, x.rest);
      ItemsWrite(n - 1, x.rest);
      var xs := ParseItems(n - 1, x.rest);
      assert r.value[0] == x.value && r.value[1..] == xs.value && r.rest == xs.rest;
      assert ItemsBytes(r.value) == ItemBytes(x.value) + ItemsBytes(xs.value);
      Assoc(ItemBytes(x.value), ItemsBytes(xs.value), xs.rest);
    }
  }

  lemma {:induction false} ArrayRead(xs: seq<Bytes>, rest: Bytes)
    requires ArrayFits(xs)
    ensures ParseArray(ArrayBytes(xs) + rest) == Parsed(xs, rest)
  {
    var b, items := ArrayBytes(xs) + rest, ItemsBytes(xs) + rest;
    assert b == Be64(|xs|) + items;
    assert b[..8] == Be64(|xs|) && b[8..] == items;
    Header64Survives(|xs|);
    ItemsRead(xs, rest);
  }

  lemma {:induction false} ArrayWrite(b: Bytes)
    requires ParseArray(b).Parsed?
    ensures var r := ParseArray(b);
            ArrayFits(r.value) && b == ArrayBytes(r.value) + r.rest
  {
    ItemsWrite(FromBE(b[..8]), b[8..]);
    Header64Read(b[..8]);
    var r := ParseArray(b);
    assert b == b[..8] + b[8..];
    Assoc(b[..8], ItemsBytes(r.value), r.rest);
  }

  lemma {:induction false} ArrayExactly(b: Bytes, xs: seq<Bytes>, rest: Bytes)
    ensures ParseArray(b) == Parsed(xs, rest) <==> ArrayFits(xs) && b == ArrayBytes(xs) + rest
  {
    if ArrayFits(xs) {
      ArrayRead(xs, rest);
    }
    if ParseArray(b) == Parsed(xs, rest) {
      ArrayWrite(b);
    }
  }

  /**
   * The parser returns a content for exactly one byte string, the one `ZesuInputBinary` frames,
   * consuming all of it; only lengths of 2^64 and above do not survive.
   */
  lemma {:induction false} ParseContentExactly(b: Bytes, c: Content)
    ensures ParseContent(b) == Some(c) <==> ContentFits(c) && b == ContentBytes(c)
  {
    var a4 := ArrayBytes(c.headers) + [];
    var a3 := ArrayBytes(c.keys) + a4;
    var a2 := ArrayBytes(c.codes) + a3;
    var a1 := ArrayBytes(c.state) + a2;
    var body := ItemBytes(c.blockRlp) + a1;
    if ContentFits(c) && b == ContentBytes(c) {
      assert b[..32] == Zeros(32) && b[32..] == body;
      ItemExactly(body, c.blockRlp, a1);
      ArrayExactly(a1, c.state, a2);
      ArrayExactly(a2, c.codes, a3);
      ArrayExactly(a3, c.keys, a4);
      ArrayExactly(a4, c.headers, []);
    }
    if ParseContent(b) == Some(c) {
      var rlp := ParseItem(b[32..]);
      var state := ParseArray(rlp.rest);
      var codes := ParseArray(state.rest);
      var keys := ParseArray(codes.rest);
      ItemExactly(b[32..], c.blockRlp, rlp.rest);
      ArrayExactly(rlp.rest, c.state, state.rest);
      ArrayExactly(state.rest, c.codes, codes.rest);
      ArrayExactly(codes.rest, c.keys, keys.rest);
      ArrayExactly(keys.rest, c.headers, []);
      assert b == b[..32] + b[32..];
    }
  }
}
