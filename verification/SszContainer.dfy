/**
 * SSZ containers as the consensus-specs define them (ssz/simple-serialize.md, "Serialization"
 * and "Deserialization"): fixed-size fields inline, a 4-byte offset for every variable-size
 * field, then the variable-size fields in order. `Serialize` is the reference definition every
 * hand-written encoder of the repository is measured against; `Deserialize` is the strict reader.
 */
module SszContainer {
  import opened Bytes

  /** The fields of a container, each already serialized. */
  datatype Parts = End | Fixed(bytes: Bytes, more: Parts) | Var(bytes: Bytes, more: Parts)

  /** What a reader knows of a container type: the size of every inline field. */
  datatype Shapes = Done | Inline(size: nat, next: Shapes) | Offset(next: Shapes)

  function ShapesOf(ps: Parts): Shapes
  {
    match ps
    case End => Done
    case Fixed(b, more) => Inline(|b|, ShapesOf(more))
    case Var(_, more) => Offset(ShapesOf(more))
  }

  /** Size of the fixed region. */
  function FixedSize(ss: Shapes): nat
  {
    match ss
    case Done => 0
    case Inline(n, next) => n + FixedSize(next)
    case Offset(next) => 4 + FixedSize(next)
  }

  /** The fixed region, when the first variable-size field starts at `off`. */
  function Head(ps: Parts, off: nat): (h: Bytes)
    ensures |h| == FixedSize(ShapesOf(ps))
  {
    match ps
    case End => []
    case Fixed(b, more) => b + Head(more, off)
    case Var(b, more) => Le32(off) + Head(more, off + |b|)
  }

  /** The variable-size fields, back to back. */
  function Tail(ps: Parts): Bytes
  {
    match ps
    case End => []
    case Fixed(_, more) => Tail(more)
    case Var(b, more) => b + Tail(more)
  }

  function Serialize(ps: Parts): Bytes
  {
    Head(ps, FixedSize(ShapesOf(ps))) + Tail(ps)
  }

  /** No offset reaches 2^32. The length of the last variable-size field is not constrained. */
  predicate OffsetsFit(ps: Parts, off: nat)
  {
    match ps
    case End => true
    case Fixed(_, more) => OffsetsFit(more, off)
    case Var(b, more) => off < TWO32 && OffsetsFit(more, off + |b|)
  }

  predicate Fits(ps: Parts)
  {
    OffsetsFit(ps, FixedSize(ShapesOf(ps)))
  }

  /** The first offset of a fixed region, or `end` when it has none. */
  function NextOffset(ss: Shapes, h: Bytes, end: nat): nat
    requires |h| == FixedSize(ss)
  {
    match ss
    case Done => end
    case Inline(n, next) => NextOffset(next, h[n..], end)
    case Offset(_) => FromLE(h[..4])
  }

  /** Reads the fields of `b`, whose fixed region is `h`; each field ends where the next begins. */
  function Fields(ss: Shapes, h: Bytes, b: Bytes): Option<Parts>
    requires |h| == FixedSize(ss)
  {
    match ss
    case Done => Some(End)
    case Inline(n, next) =>
      var rest := Fields(next, h[n..], b);
      if rest.None? then None else Some(Fixed(h[..n], rest.value))
    case Offset(next) =>
      var rest := Fields(next, h[4..], b);
      var start, end := FromLE(h[..4]), NextOffset(next, h[4..], |b|);
      if rest.None? || !(start <= end <= |b|) then None else Some(Var(b[start..end], rest.value))
  }

  /** Strict: the first offset is the fixed-region size, offsets never decrease, no byte is left over. */
  function Deserialize(ss: Shapes, b: Bytes): Option<Parts>
  {
    var n := FixedSize(ss);
    if |b| < n || NextOffset(ss, b[..n], |b|) != n then None else Fields(ss, b[..n], b)
  }

  lemma {:induction false} ReadBack(ps: Parts, off: nat, b: Bytes)
    requires OffsetsFit(ps, off)
    requires off <= |b| && b[off..] == Tail(ps)
    ensures NextOffset(ShapesOf(ps), Head(ps, off), |b|) == off
    ensures Fields(ShapesOf(ps), Head(ps, off), b) == Some(ps)
  {
    var h := Head(ps, off);
    match ps
    case End =>
    case Fixed(x, more) =>
      ReadBack(more, off, b);
      assert h[..|x|] == x && h[|x|..] == Head(more, off);
    case Var(x, more) =>
      var end := off + |x|;
      assert b[off..end] == b[off..][..|x|] == x;
      assert b[end..] == b[off..][|x|..] == Tail(more);
      ReadBack(more, end, b);
      assert h[..4] == Le32(off) && h[4..] == Head(more, end);
      OffsetSurvives(off);
  }

  lemma {:induction false} WriteBack(ss: Shapes, h: Bytes, b: Bytes)
    requires |h| == FixedSize(ss) && Fields(ss, h, b).Some?
    ensures var ps, off := Fields(ss, h, b).value, NextOffset(ss, h, |b|);
            ShapesOf(ps) == ss && off <= |b| && Head(ps, off) == h && Tail(ps) == b[off..] && OffsetsFit(ps, off)
  {
    match ss
    case Done =>
    case Inline(n, next) =>
      WriteBack(next, h[n..], b);
      assert h == h[..n] + h[n..];
    case Offset(next) =>
      WriteBack(next, h[4..], b);
      WriteBackVar(h[..4], Fields(next, h[4..], b).value, NextOffset(next, h[4..], |b|), b);
      assert h == h[..4] + h[4..];
  }

  lemma {:induction false} WriteBackVar(slot: Bytes, more: Parts, end: nat, b: Bytes)
    requires |slot| == 4 && FromLE(slot) <= end <= |b|
    requires Tail(more) == b[end..] && OffsetsFit(more, end)
    ensures var start := FromLE(slot);
            var ps := Var(b[start..end], more);
            Head(ps, start) == slot + Head(more, end) && Tail(ps) == b[start..] && OffsetsFit(ps, start)
  {
    OffsetRead(slot);
    assert b[FromLE(slot)..] == b[FromLE(slot)..end] + b[end..];
  }

  /**
   * The strict reader inverts `Serialize` and accepts nothing else: it returns `ps` for exactly
   * one byte string, the serialization of `ps`, and only when no offset of it wraps.
   */
  lemma {:induction false} DeserializeExactly(ss: Shapes, b: Bytes, ps: Parts)
    ensures Deserialize(ss, b) == Some(ps) <==> ShapesOf(ps) == ss && Fits(ps) && b == Serialize(ps)
  {
    var n := FixedSize(ss);
    if Deserialize(ss, b) == Some(ps) {
      WriteBack(ss, b[..n], b);
      assert b == b[..n] + b[n..];
    }
    if ShapesOf(ps) == ss && Fits(ps) && b == Serialize(ps) {
      assert b[..n] == Head(ps, n) && b[n..] == Tail(ps);
      ReadBack(ps, n, b);
    }
  }

  lemma {:induction false} OffsetsWithin(ps: Parts, off: nat)
    requires off + |Tail(ps)| < TWO32
    ensures OffsetsFit(ps, off)
  {
    match ps
    case End =>
    case Fixed(_, more) => OffsetsWithin(more, off);
    case Var(b, more) => OffsetsWithin(more, off + |b|);
  }

  /** An encoding shorter than 2^32 bytes has no wrapped offset. */
  lemma {:induction false} ShortFits(ps: Parts)
    requires |Serialize(ps)| < TWO32
    ensures Fits(ps)
  {
    OffsetsWithin(ps, FixedSize(ShapesOf(ps)));
  }

  /** The fixed region as a buffer that the fields are written to one after the other. */
  function Written(buf: Bytes, ps: Parts, off: nat): Bytes
    decreases ps
  {
    match ps
    case End => buf
    case Fixed(b, more) => Written(buf + b, more, off)
    case Var(b, more) => Written(buf + Le32(off), more, off + |b|)
  }

  lemma {:induction false} WrittenIsHead(buf: Bytes, ps: Parts, off: nat)
    ensures Written(buf, ps, off) == buf + Head(ps, off)
    decreases ps
  {
    match ps
    case End =>
    case Fixed(b, more) =>
      WrittenIsHead(buf + b, more, off);
      assert buf + b + Head(more, off) == buf + Head(ps, off);
    case Var(b, more) =>
      WrittenIsHead(buf + Le32(off), more, off + |b|);
      assert buf + Le32(off) + Head(more, off + |b|) == buf + Head(ps, off);
  }
}
