/** Machine integers and their byte encodings, as `encoding/binary` writes them. */
module Bytes {
  type byte = x: int | 0 <= x < 256
  type Bytes = seq<byte>

  const TWO32 := 0x1_0000_0000
  const TWO64 := 0x1_0000_0000_0000_0000
  const TWO256: int := 0x1_0000_0000_0000_0000_0000_0000_0000_0000_0000_0000_0000_0000_0000_0000_0000_0000

  type u32 = x: int | 0 <= x < 0x1_0000_0000
  type u64 = x: int | 0 <= x < 0x1_0000_0000_0000_0000
  type u256 = x: int | 0 <= x < TWO256

  /** Fixed-size byte arrays: `common.Hash`, `common.Address`, `types.Bloom`. */
  type Bytes20 = b: Bytes | |b| == 20 witness seq(20, _ => 0)
  type Bytes32 = b: Bytes | |b| == 32 witness seq(32, _ => 0)
  type Bytes256 = b: Bytes | |b| == 256 witness seq(256, _ => 0)

  datatype Option<+T> = None | Some(value: T)

  function Zeros(n: nat): (b: Bytes)
    ensures |b| == n && forall i :: 0 <= i < n ==> b[i] == 0
  {
    seq(n, _ => 0)
  }

  function Pow256(n: nat): (r: nat)
    ensures r > 0
  {
    if n == 0 then 1 else 256 * Pow256(n - 1)
  }

  /** The low `n` bytes of `v`, least significant first. */
  function LE(n: nat, v: nat): (b: Bytes)
    ensures |b| == n
  {
    if n == 0 then [] else [v % 256] + LE(n - 1, v / 256)
  }

  function FromLE(b: Bytes): (v: nat)
  {
    if b == [] then 0 else b[0] + 256 * FromLE(b[1..])
  }

  /** The low `n` bytes of `v`, most significant first. */
  function BE(n: nat, v: nat): (b: Bytes)
    ensures |b| == n
  {
    if n == 0 then [] else BE(n - 1, v / 256) + [v % 256]
  }

  function FromBE(b: Bytes): (v: nat)
  {
    if b == [] then 0 else 256 * FromBE(b[..|b| - 1]) + b[|b| - 1]
  }

  lemma {:induction false} FromLEBound(b: Bytes)
    ensures FromLE(b) < Pow256(|b|)
  {
    if b != [] {
      FromLEBound(b[1..]);
    }
  }

  lemma {:induction false} FromBEBound(b: Bytes)
    ensures FromBE(b) < Pow256(|b|)
  {
    if b != [] {
      FromBEBound(b[..|b| - 1]);
    }
  }

  lemma {:induction false} LERead(n: nat, v: nat)
    requires v < Pow256(n)
    ensures FromLE(LE(n, v)) == v
  {
    if n > 0 {
      LERead(n - 1, v / 256);
      assert LE(n, v)[1..] == LE(n - 1, v / 256);
    }
  }

  lemma {:induction false} LEWrite(b: Bytes)
    ensures LE(|b|, FromLE(b)) == b
  {
    if b != [] {
      var v, r := FromLE(b), FromLE(b[1..]);
      LEWrite(b[1..]);
      assert v == b[0] + 256 * r;
      assert v % 256 == b[0] && v / 256 == r;
      assert b == [b[0]] + b[1..];
    }
  }

  lemma {:induction false} BERead(n: nat, v: nat)
    requires v < Pow256(n)
    ensures FromBE(BE(n, v)) == v
  {
    if n > 0 {
      BERead(n - 1, v / 256);
      assert BE(n, v)[..n - 1] == BE(n - 1, v / 256);
    }
  }

  lemma {:induction false} BEWrite(b: Bytes)
    ensures BE(|b|, FromBE(b)) == b
  {
    if b != [] {
      BEWrite(b[..|b| - 1]);
      assert b == b[..|b| - 1] + [b[|b| - 1]];
    }
  }

  lemma {:induction false} LEPeriodic(n: nat, v: nat, k: nat)
    ensures LE(n, v + k * Pow256(n)) == LE(n, v)
  {
    if n > 0 {
      var m := k * Pow256(n - 1);
      Regroup(k, Pow256(n - 1));
      LEPeriodic(n - 1, v / 256, k);
      LowByte(v, m);
    }
  }

  lemma Regroup(k: nat, p: nat)
    ensures k * (256 * p) == 256 * (k * p)
  {
  }

  lemma LowByte(v: nat, m: nat)
    ensures (v + 256 * m) % 256 == v % 256 && (v + 256 * m) / 256 == v / 256 + m
  {
  }

  lemma Assoc(a: Bytes, b: Bytes, c: Bytes)
    ensures a + (b + c) == a + b + c
  {
  }

  /** Equal buffers with a common end and heads of equal size differ nowhere in between. */
  lemma {:induction false} Cancel(g: Bytes, h: Bytes, a: Bytes, b: Bytes, end: Bytes)
    requires |g| == |h|
    ensures g + (a + end) == h + (b + end) ==> a == b
  {
    if g + (a + end) == h + (b + end) {
      var x, y := g + (a + end), h + (b + end);
      assert |x| == |y| && |a| == |b|;
      assert a == x[|g|..|g| + |a|];
      assert b == y[|h|..|h| + |b|];
    }
  }

  lemma ThreeParts(a: Bytes, b: Bytes, c: Bytes)
    ensures var s := a + b + c;
            s[..|a|] == a && s[|a|..|a| + |b|] == b && s[|a| + |b|..] == c && s[|a|..] == b + c
  {
  }

  lemma Pow256Widths()
    ensures Pow256(W32.bytes) == TWO32 && Pow256(W64.bytes) == TWO64
  {
    assert Pow256(4) == TWO32;
    assert Pow256(6) == 0x1_0000_0000_0000;
    assert Pow256(8) == TWO64;
  }

  lemma Pow256Of32()
    ensures Pow256(W256.bytes) == TWO256
  {
    assert Pow256(8) == TWO64;
    assert Pow256(12) == 0x1_0000_0000_0000_0000_0000_0000;
    assert Pow256(16) == 0x1_0000_0000_0000_0000_0000_0000_0000_0000;
    assert Pow256(20) == 0x1_0000_0000_0000_0000_0000_0000_0000_0000_0000_0000;
    assert Pow256(24) == 0x1_0000_0000_0000_0000_0000_0000_0000_0000_0000_0000_0000_0000;
    assert Pow256(28) == 0x1_0000_0000_0000_0000_0000_0000_0000_0000_0000_0000_0000_0000_0000_0000;
    assert Pow256(32) == TWO256;
  }

  /** Widths by name, so that proofs about a width do not unfold it byte by byte. */
  datatype Width = Width(bytes: nat)

  const W32 := Width(4)
  const W64 := Width(8)
  const W256 := Width(32)

  /** `writeU32LE(uint32(off))` for an unbounded `off`: only its residue modulo 2^32 is written. */
  function Le32(off: nat): (b: Bytes)
    ensures |b| == 4
  {
    LE(W32.bytes, off)
  }

  function Le64(v: nat): (b: Bytes)
    ensures |b| == 8
  {
    LE(W64.bytes, v)
  }

  function Le256(v: nat): (b: Bytes)
    ensures |b| == 32
  {
    LE(W256.bytes, v)
  }

  function Be64(v: nat): (b: Bytes)
    ensures |b| == 8
  {
    BE(W64.bytes, v)
  }

  /** Reading an offset back gives the value written exactly when it did not wrap at 2^32. */
  lemma {:induction false} OffsetSurvives(off: nat)
    ensures FromLE(Le32(off)) == off <==> off < TWO32
  {
    Pow256Widths();
    FromLEBound(Le32(off));
    if off < TWO32 {
      LERead(W32.bytes, off);
    }
  }

  /** Any four bytes are the encoding of exactly one offset. */
  lemma {:induction false} OffsetRead(h: Bytes)
    requires |h| == 4
    ensures FromLE(h) < TWO32 && Le32(FromLE(h)) == h
  {
    Pow256Widths();
    FromLEBound(h);
    LEWrite(h);
  }

  /** Go's conversion `uint32(n)`. */
  function Wrap32(n: nat): u32
  {
    n % TWO32
  }

  /** uint32 addition of converted values. */
  lemma WrapAdd(a: nat, b: nat)
    ensures Wrap32(Wrap32(a) + Wrap32(b)) == Wrap32(a + b)
  {
  }

  /** Wrapping an intermediate sum does not change the bytes written. */
  lemma WrapIsInvisible(off: nat)
    ensures Le32(Wrap32(off)) == Le32(off)
  {
    Pow256Widths();
    LEPeriodic(W32.bytes, off % TWO32, off / TWO32);
  }

  lemma {:induction false} U64RoundTrip(v: u64, b: Bytes)
    requires |b| == 8
    ensures b == Le64(v) <==> FromLE(b) == v
  {
    Pow256Widths();
    LERead(W64.bytes, v);
    LEWrite(b);
  }

  /** A 64-bit header survives exactly when the length fits it, in either byte order. */
  lemma {:induction false} Header64Survives(n: nat)
    ensures FromLE(Le64(n)) == n <==> n < TWO64
    ensures FromBE(Be64(n)) == n <==> n < TWO64
  {
    Pow256Widths();
    FromLEBound(Le64(n));
    FromBEBound(Be64(n));
    if n < TWO64 {
      LERead(W64.bytes, n);
      BERead(W64.bytes, n);
    }
  }

  lemma {:induction false} Header64Read(h: Bytes)
    requires |h| == 8
    ensures FromLE(h) < TWO64 && Le64(FromLE(h)) == h
    ensures FromBE(h) < TWO64 && Be64(FromBE(h)) == h
  {
    Pow256Widths();
    FromLEBound(h);
    FromBEBound(h);
    LEWrite(h);
    BEWrite(h);
  }
}
