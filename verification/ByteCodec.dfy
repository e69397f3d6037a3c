/**
  Fixed-width unsigned integers as bytes: little-endian for the SCALE types of the
  ink! contracts, big-endian for the ABI words of the Solidity contract.
 */
module ByteCodec {
  import opened Wrappers

  type Byte = x: int | 0 <= x < 256
  type Bytes = seq<Byte>

  const U16_LIMIT: nat := 0x1_0000
  const U32_LIMIT: nat := 0x1_0000_0000
  const U128_LIMIT: nat := 0x1_0000_0000_0000_0000_0000_0000_0000_0000
  const U256_LIMIT: nat := U128_LIMIT * U128_LIMIT

  type U16 = x: int | 0 <= x < U16_LIMIT
  type U32 = x: int | 0 <= x < U32_LIMIT
  type U128 = x: int | 0 <= x < U128_LIMIT

  /** 256 to the power of w. */
  function Pow256(w: nat): (p: nat)
    ensures p > 0
  {
    if w == 0 then 1 else 256 * Pow256(w - 1)
  }

  /** The w low-order bytes of n, least significant first; anything above is cut off. */
  function EncodeLE(n: nat, w: nat): (b: Bytes)
    ensures |b| == w
    decreases w
  {
    if w == 0 then [] else [n % 256] + EncodeLE(n / 256, w - 1)
  }

  function DecodeLE(b: Bytes): nat {
    if b == [] then 0 else b[0] + 256 * DecodeLE(b[1..])
  }

  /** The w low-order bytes of n, most significant first. */
  function EncodeBE(n: nat, w: nat): (b: Bytes)
    ensures |b| == w
    decreases w
  {
    if w == 0 then [] else EncodeBE(n / 256, w - 1) + [n % 256]
  }

  function DecodeBE(b: Bytes): nat {
    if b == [] then 0 else 256 * DecodeBE(b[..|b| - 1]) + b[|b| - 1]
  }

  /** Dividing by 256 and cutting at 256^(w-1) is cutting at 256^w and dividing. */
  lemma ModPow256(n: nat, w: nat)
    requires w > 0
    ensures n % Pow256(w) == n % 256 + 256 * ((n / 256) % Pow256(w - 1))
  {
    var p := Pow256(w - 1);
    var q := n / 256;
    var r := n % 256 + 256 * (q % p);
    assert q == (q / p) * p + q % p;
    assert n == 256 * q + n % 256;
    calc {
      n;
      256 * ((q / p) * p + q % p) + n % 256;
      (q / p) * (256 * p) + r;
    }
    assert 0 <= r < 256 * p;
    ModUnique(n, 256 * p, q / p, r);
  }

  lemma ModUnique(n: nat, d: nat, q: nat, r: nat)
    requires d > 0 && n == q * d + r && r < d
    ensures n % d == r && n / d == q
  {
    EuclidUnique(d, q, r, n / d, n % d);
  }

  lemma EuclidUnique(d: nat, q: nat, r: nat, q': nat, r': nat)
    requires d > 0 && r < d && r' < d && q * d + r == q' * d + r'
    ensures q == q' && r == r'
  {
    assert (q - q') * d == r' - r;
    SmallMultiple(q - q', d);
  }

  lemma SmallMultiple(k: int, d: int)
    requires d > 0 && -d < k * d < d
    ensures k == 0
  {
    if k >= 1 {
      MulAtLeast(k, d);
    } else if k <= -1 {
      MulAtLeast(-k, d);
    }
  }

  lemma MulAtLeast(k: int, d: int)
    requires k >= 1 && d >= 0
    ensures k * d >= d
  {
  }

  /** Decoding an encoding gives the number back, cut to the width. */
  lemma {:induction false} DecodeEncodeLE(n: nat, w: nat)
    ensures DecodeLE(EncodeLE(n, w)) == n % Pow256(w)
    decreases w
  {
    if w == 0 {
    } else {
      DecodeEncodeLE(n / 256, w - 1);
      assert EncodeLE(n, w)[1..] == EncodeLE(n / 256, w - 1);
      ModPow256(n, w);
    }
  }

  /** Encoding a decoding gives the bytes back, so every byte string encodes one number. */
  lemma {:induction false} EncodeDecodeLE(b: Bytes)
    ensures EncodeLE(DecodeLE(b), |b|) == b
  {
    if b == [] {
    } else {
      EncodeDecodeLE(b[1..]);
      var n := DecodeLE(b);
      assert n % 256 == b[0] && n / 256 == DecodeLE(b[1..]);
      assert b == [b[0]] + b[1..];
    }
  }

  /** Which byte stands where: little-endian the lowest first, big-endian the lowest last. */
  lemma {:induction false} BytePositions(n: nat, w: nat, i: nat)
    requires i < w
    ensures EncodeLE(n, w)[i] == n / Pow256(i) % 256
    ensures EncodeBE(n, w)[w - 1 - i] == n / Pow256(i) % 256
    decreases w
  {
    if i > 0 {
      BytePositions(n / 256, w - 1, i - 1);
      DivideTwice(n, i);
    } else {
      assert n / 1 == n;
    }
  }

  lemma DivideTwice(n: nat, i: nat)
    requires i > 0
    ensures n / Pow256(i) == n / 256 / Pow256(i - 1)
  {
    var p := Pow256(i - 1);
    var m := n / 256;
    var q, r := m / p, m % p;
    assert m == q * p + r && n == 256 * m + n % 256;
    assert n == q * (256 * p) + (256 * r + n % 256) by {
      assert 256 * (q * p + r) == q * (256 * p) + 256 * r;
    }
    assert 256 * r + n % 256 < 256 * p;
    ModUnique(n, 256 * p, q, 256 * r + n % 256);
  }

  lemma {:induction false} DecodeEncodeBE(n: nat, w: nat)
    ensures DecodeBE(EncodeBE(n, w)) == n % Pow256(w)
    decreases w
  {
    if w == 0 {
    } else {
      DecodeEncodeBE(n / 256, w - 1);
      assert EncodeBE(n, w)[..w - 1] == EncodeBE(n / 256, w - 1);
      ModPow256(n, w);
    }
  }

  lemma {:induction false} EncodeDecodeBE(b: Bytes)
    ensures EncodeBE(DecodeBE(b), |b|) == b
  {
    if b == [] {
    } else {
      var front := b[..|b| - 1];
      EncodeDecodeBE(front);
      var n := DecodeBE(b);
      assert n % 256 == b[|b| - 1] && n / 256 == DecodeBE(front);
      assert b == front + [b[|b| - 1]];
    }
  }

  /** A number that fits its width survives the round trip unchanged. */
  lemma RoundTripLE(n: nat, w: nat)
    requires n < Pow256(w)
    ensures DecodeLE(EncodeLE(n, w)) == n
  {
    DecodeEncodeLE(n, w);
    ModUnique(n, Pow256(w), 0, n);
  }

  lemma RoundTripBE(n: nat, w: nat)
    requires n < Pow256(w)
    ensures DecodeBE(EncodeBE(n, w)) == n
  {
    DecodeEncodeBE(n, w);
    ModUnique(n, Pow256(w), 0, n);
  }

  lemma Widths()
    ensures Pow256(1) == 256
    ensures Pow256(2) == U16_LIMIT
    ensures Pow256(4) == U32_LIMIT
    ensures Pow256(16) == U128_LIMIT
    ensures Pow256(32) == U256_LIMIT
  {
    assert Pow256(3) == 0x100_0000;
    assert Pow256(5) == 0x100_0000_0000;
    assert Pow256(6) == 0x1_0000_0000_0000;
    assert Pow256(7) == 0x100_0000_0000_0000;
    PowAdd(4, 4);
    PowAdd(8, 8);
    PowAdd(16, 16);
  }

  lemma {:induction false} PowAdd(a: nat, b: nat)
    ensures Pow256(a + b) == Pow256(a) * Pow256(b)
  {
    if a == 0 {
    } else {
      PowAdd(a - 1, b);
      assert 256 * (Pow256(a - 1) * Pow256(b)) == (256 * Pow256(a - 1)) * Pow256(b);
    }
  }

  /** A u32 in SCALE form: four bytes, wrapping at 2^32. */
  function EncodeU32(n: nat): (b: Bytes)
    ensures |b| == 4
  {
    EncodeLE(n, 4)
  }

  /** Reads a u32 from the front of a byte string; too few bytes is an error. */
  function DecodeU32(b: Bytes): Option<nat> {
    if |b| < 4 then None else Some(DecodeLE(b[..4]))
  }

  lemma DecodeEncodeU32(n: nat)
    ensures DecodeU32(EncodeU32(n)) == Some(n % U32_LIMIT)
    ensures n < U32_LIMIT ==> DecodeU32(EncodeU32(n)) == Some(n)
  {
    Widths();
    DecodeEncodeLE(n, 4);
    assert EncodeU32(n)[..4] == EncodeU32(n);
  }

  lemma {:induction false} DecodeLEBound(b: Bytes)
    ensures DecodeLE(b) < Pow256(|b|)
  {
    if b == [] {
    } else {
      DecodeLEBound(b[1..]);
    }
  }

  lemma DecodeU32Bound(b: Bytes)
    ensures DecodeU32(b).Some? ==> DecodeU32(b).value < U32_LIMIT
  {
    if |b| >= 4 {
      Widths();
      DecodeLEBound(b[..4]);
    }
  }
}
