/** `sszUint256`: a big integer, reversed from its big-endian bytes into a 32-byte array. */
module SszUint {
  import opened Bytes

  /** `big.Int.Bytes`: big-endian, without leading zeros. */
  function BigEndian(n: nat): Bytes
  {
    if n == 0 then [] else BigEndian(n / 256) + [n % 256]
  }

  function Digit(n: nat, k: nat): byte
    decreases k
  {
    if k == 0 then n % 256 else Digit(n / 256, k - 1)
  }

  lemma {:induction false} BigEndianDigits(n: nat, k: nat)
    ensures Digit(n, k) == if k < |BigEndian(n)| then BigEndian(n)[|BigEndian(n)| - 1 - k] else 0
    decreases k
  {
    if n == 0 {
      if k > 0 {
        BigEndianDigits(0, k - 1);
      }
    } else if k > 0 {
      BigEndianDigits(n / 256, k - 1);
    }
  }

  lemma {:induction false} BigEndianLength(n: nat, m: nat)
    requires n < Pow256(m)
    ensures |BigEndian(n)| <= m
  {
    if n > 0 {
      BigEndianLength(n / 256, m - 1);
    }
  }

  lemma {:induction false} LEDigits(m: nat, n: nat, k: nat)
    requires k < m
    ensures LE(m, n)[k] == Digit(n, k)
    decreases k
  {
    if k > 0 {
      LEDigits(m - 1, n / 256, k - 1);
    }
  }

  /** A nil or non-positive fee encodes as zero. */
  function FeeValue(n: Option<int>): nat
  {
    if n.Some? && n.value > 0 then n.value else 0
  }

  /** The type's domain; a larger value would index outside the array. */
  predicate FeeInRange(n: Option<int>)
  {
    FeeValue(n) < TWO256
  }

  method SszUint256(n: Option<int>) returns (r: Bytes)
    requires FeeInRange(n)
    ensures r == Le256(FeeValue(n))
    ensures |r| == 32 && FromLE(r) == if n.Some? && n.value > 0 then n.value else 0
  {
    var b := new byte[32](_ => 0);
    ghost var v := FeeValue(n);
    ghost var len := |BigEndian(v)|;
    assert len <= 32 by {
      Pow256Of32();
      BigEndianLength(v, 32);
    }
    if n.Some? && n.value > 0 {
      var nb := BigEndian(n.value);
      for i := 0 to |nb|
        invariant forall k :: 0 <= k < 32 ==> b[k] == if len - i <= k < len then nb[len - 1 - k] else 0
      {
        b[|nb| - 1 - i] := nb[i];
      }
    }
    r := b[..];
    forall k | 0 <= k < 32
      ensures r[k] == Le256(v)[k]
    {
      BigEndianDigits(v, k);
      LEDigits(W256.bytes, v, k);
    }
    assert r == Le256(v);
    assert FromLE(Le256(v)) == v by {
      Pow256Of32();
      LERead(W256.bytes, v);
    }
  }
}
