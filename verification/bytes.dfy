/** Bytes, big-endian integer fields, and the bits of an integer. */
module Bytes {
  type Byte = n: int | 0 <= n < 0x100
  type Bytes = seq<Byte>

  // ---------------------------------------------------------------- big-endian fields

  function Pow256(width: nat): nat {
    if width == 0 then 1 else 256 * Pow256(width - 1)
  }

  /** `n` in `width` bytes, most significant first, as `struct.pack("!…")` writes it. */
  function BigEndian(n: nat, width: nat): (s: Bytes)
    requires n < Pow256(width)
    ensures |s| == width
  {
    if width == 0 then [] else BigEndian(n / 256, width - 1) + [n % 256]
  }

  function FromBigEndian(s: Bytes): nat {
    if s == [] then 0 else 256 * FromBigEndian(s[..|s| - 1]) + s[|s| - 1]
  }

  lemma {:induction false} FromBigEndianInverts(n: nat, width: nat)
    requires n < Pow256(width)
    ensures FromBigEndian(BigEndian(n, width)) == n
  {
    if width > 0 {
      FromBigEndianInverts(n / 256, width - 1);
      var s := BigEndian(n, width);
      assert s[..|s| - 1] == BigEndian(n / 256, width - 1);
    }
  }

  lemma {:induction false} BigEndianInverts(s: Bytes)
    ensures FromBigEndian(s) < Pow256(|s|)
    ensures BigEndian(FromBigEndian(s), |s|) == s
  {
    if s != [] {
      var front, last := s[..|s| - 1], s[|s| - 1];
      BigEndianInverts(front);
      assert s == front + [last];
    }
  }

  // ---------------------------------------------------------------- bits of an integer

  type Bits = seq<bool>

  const BYTE_BITS: nat := 8

  function Pow2(width: nat): nat {
    if width == 0 then 1 else 2 * Pow2(width - 1)
  }

  /** The `width` low bits of `n`, most significant first. */
  function BitsOf(n: nat, width: nat): (s: Bits)
    ensures |s| == width
  {
    if width == 0 then [] else BitsOf(n / 2, width - 1) + [n % 2 == 1]
  }

  function FromBits(s: Bits): nat {
    if s == [] then 0 else 2 * FromBits(s[..|s| - 1]) + if s[|s| - 1] then 1 else 0
  }

  function XorBits(a: Bits, b: Bits): (s: Bits)
    requires |a| == |b|
    ensures |s| == |a| && forall k :: 0 <= k < |a| ==> s[k] == (a[k] != b[k])
  {
    seq(|a|, k requires 0 <= k < |a| => a[k] != b[k])
  }

  /** Python's `a ^ b` on non-negative integers. */
  function BitXor(a: nat, b: nat): nat {
    if a == 0 && b == 0 then 0
    else 2 * BitXor(a / 2, b / 2) + if a % 2 != b % 2 then 1 else 0
  }

  lemma {:induction false} FromBitsInverts(n: nat, width: nat)
    requires n < Pow2(width)
    ensures FromBits(BitsOf(n, width)) == n
  {
    if width > 0 {
      FromBitsInverts(n / 2, width - 1);
      var s := BitsOf(n, width);
      assert s[..|s| - 1] == BitsOf(n / 2, width - 1);
    }
  }

  lemma {:induction false} BitsOfInverts(s: Bits)
    ensures FromBits(s) < Pow2(|s|)
    ensures BitsOf(FromBits(s), |s|) == s
  {
    if s != [] {
      var front, last := s[..|s| - 1], s[|s| - 1];
      BitsOfInverts(front);
      assert s == front + [last];
    }
  }

  lemma {:induction false} BitsOfXor(a: nat, b: nat, width: nat)
    ensures BitsOf(BitXor(a, b), width) == XorBits(BitsOf(a, width), BitsOf(b, width))
  {
    if width > 0 {
      BitsOfXor(a / 2, b / 2, width - 1);
      var x := BitXor(a, b);
      assert x / 2 == BitXor(a / 2, b / 2) && x % 2 == if a % 2 != b % 2 then 1 else 0;
    }
  }

  /** Masking with 2^width - 1 keeps the low bits. */
  lemma {:induction false} BitsOfMasked(n: nat, width: nat)
    ensures Pow2(width) > 0
    ensures BitsOf(n % Pow2(width), width) == BitsOf(n, width)
  {
    if width > 0 {
      BitsOfMasked(n / 2, width - 1);
      HalfOfRemainder(n, Pow2(width - 1));
    }
  }

  lemma HalfOfRemainder(n: nat, m: nat)
    requires m > 0
    ensures n % (2 * m) / 2 == n / 2 % m
    ensures n % (2 * m) % 2 == n % 2
    ensures n / 2 / m == n / (2 * m)
  {
    var half, rest := n / 2 / m, n / 2 % m;
    Recomposed(n, m, half, rest);
    RemainderUnique(n, 2 * m, half, 2 * rest + n % 2);
  }

  lemma Recomposed(n: nat, m: nat, half: nat, rest: nat)
    requires m > 0 && half == n / 2 / m && rest == n / 2 % m
    ensures n == 2 * m * half + (2 * rest + n % 2) && 2 * rest + n % 2 < 2 * m
  {
    assert n / 2 == m * half + rest;
    assert 2 * m * half == 2 * (m * half);
  }

  lemma RemainderUnique(n: nat, m: nat, q: nat, r: nat)
    requires m > 0 && n == m * q + r && r < m
    ensures n % m == r && n / m == q
  {
    var d := n / m - q;
    assert m * d == r - n % m by {
      assert n == m * (n / m) + n % m;
      assert m * d == m * (n / m) - m * q;
    }
    NonzeroMultiple(m, d);
  }

  lemma NonzeroMultiple(m: int, d: int)
    requires m > 0
    ensures d == 0 || m * d >= m || m * d <= -m
  {
    if d > 0 {
      assert m * d >= m * 1;
    } else if d < 0 {
      assert m * d <= m * -1;
    }
  }

  /** The top bit of a narrower reading is the next bit of a wider one. */
  lemma {:induction false} BitsOfNarrower(n: nat, width: nat)
    ensures BitsOf(n, width + 1)[1..] == BitsOf(n, width)
  {
    if width > 0 {
      BitsOfNarrower(n / 2, width - 1);
    }
  }
}
