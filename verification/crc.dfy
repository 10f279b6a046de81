/**
 The CRC-8 of protocol.py: polynomial x^8+x^5+x^4+1, most significant bit first, initial value 0.

 The specification is bit-serial division over GF(2), on registers of eight coefficients, proved to leave the
 remainder of the message times x^8; the byte-wise loop of the source is proved to compute it, and the detection
 properties are proved of the division.
 */
module Crc {
  import opened Bytes

  // ---------------------------------------------------------------- polynomials of degree below 8

  datatype Register = Register(b7: bool, b6: bool, b5: bool, b4: bool, b3: bool, b2: bool, b1: bool, b0: bool)

  const ZERO := Register(false, false, false, false, false, false, false, false)
  const TOP := Register(true, false, false, false, false, false, false, false)

  function Add(a: Register, b: Register): Register {
    Register(a.b7 != b.b7, a.b6 != b.b6, a.b5 != b.b5, a.b4 != b.b4,
             a.b3 != b.b3, a.b2 != b.b2, a.b1 != b.b1, a.b0 != b.b0)
  }

  /** Multiplication by x modulo x^8+x^5+x^4+1. */
  function TimesX(c: Register): Register {
    Register(c.b6, c.b5, c.b4 != c.b7, c.b3 != c.b7, c.b2, c.b1, c.b0, c.b7)
  }

  function TimesXPower(c: Register, n: nat): Register
    decreases n
  {
    if n == 0 then c else TimesX(TimesXPower(c, n - 1))
  }

  /** Feed one message bit into the register. */
  function Feed(c: Register, bit: bool): Register {
    TimesX(c.(b7 := c.b7 != bit))
  }

  /** The remainder of message(x) * x^8. */
  function Remainder(message: Bits): Register {
    if message == [] then ZERO
    else Feed(Remainder(message[..|message| - 1]), message[|message| - 1])
  }

  // ---------------------------------------------------------------- bytes

  function RegisterOf(n: nat): Register {
    var s := BitsOf(n, BYTE_BITS);
    Register(s[0], s[1], s[2], s[3], s[4], s[5], s[6], s[7])
  }

  function BitsOfRegister(c: Register): Bits {
    [c.b7, c.b6, c.b5, c.b4, c.b3, c.b2, c.b1, c.b0]
  }

  function ByteOf(c: Register): Byte {
    BitsOfInverts(BitsOfRegister(c));
    assert Pow2(8) == 256;
    FromBits(BitsOfRegister(c))
  }

  function MessageBits(data: Bytes): (s: Bits)
    ensures |s| == 8 * |data|
  {
    if data == [] then [] else MessageBits(data[..|data| - 1]) + BitsOf(data[|data| - 1], BYTE_BITS)
  }

  function CrcOf(data: Bytes): Byte {
    ByteOf(Remainder(MessageBits(data)))
  }

  // ---------------------------------------------------------------- division with remainder

  /** The coefficients of x^8+x^5+x^4+1. */
  function Polynomial(): (p: Bits)
    ensures |p| == 9 && forall k :: 0 <= k < 9 ==> p[k] == (k == 0 || k == 3 || k == 4 || k == 8)
  {
    seq(9, k => k == 0 || k == 3 || k == 4 || k == 8)
  }

  function Zeros(n: nat): (s: Bits)
    ensures |s| == n && forall k :: 0 <= k < n ==> !s[k]
  {
    seq(n, _ => false)
  }

  /** The polynomial times one bit. */
  function Mask(bit: bool): (m: Bits)
    ensures |m| == 9
  {
    if bit then Polynomial() else Zeros(9)
  }

  /** The product of `q` with the polynomial, by shift and XOR; the first bit is the highest coefficient. */
  function Product(q: Bits): (s: Bits)
    ensures |s| == |q| + 8
  {
    if q == [] then Zeros(8)
    else
      var n := |q| - 1;
      XorBits(Product(q[..n]) + [false], Zeros(n) + Mask(q[n]))
  }

  /** The quotient of message(x) * x^8. */
  function Quotient(message: Bits): (q: Bits)
    ensures |q| == |message|
  {
    if message == [] then []
    else
      var n := |message| - 1;
      Quotient(message[..n]) + [Remainder(message[..n]).b7 != message[n]]
  }

  /** The polynomial divides what these coefficients stand for. */
  ghost predicate Divides(y: Bits) {
    exists q :: Product(q) == y
  }

  /** Coefficient 7 - k of a register. */
  predicate Coefficient(c: Register, k: nat) {
    if k == 0 then c.b7 else if k == 1 then c.b6 else if k == 2 then c.b5 else if k == 3 then c.b4
    else if k == 4 then c.b3 else if k == 5 then c.b2 else if k == 6 then c.b1 else k == 7 && c.b0
  }

  predicate IsCoefficient(c: Register, k: nat)
    requires k < 8
  {
    BitsOfRegister(c)[k] == Coefficient(c, k)
  }

  lemma RegisterBit(c: Register, k: nat)
    requires k < 8
    ensures IsCoefficient(c, k)
  {
    if k == 0 {
      assert IsCoefficient(c, 0);
    } else if k == 1 {
      assert IsCoefficient(c, 1);
    } else if k == 2 {
      assert IsCoefficient(c, 2);
    } else if k == 3 {
      assert IsCoefficient(c, 3);
    } else if k == 4 {
      assert IsCoefficient(c, 4);
    } else if k == 5 {
      assert IsCoefficient(c, 5);
    } else if k == 6 {
      assert IsCoefficient(c, 6);
    } else {
      assert IsCoefficient(c, 7);
    }
  }

  /** Feeding a bit shifts the register and subtracts the polynomial if the quotient has a one. */
  predicate Subtracts(c: Register, bit: bool, k: nat)
    requires k < 8
  {
    Coefficient(Feed(c, bit), k) == (Coefficient(c, k + 1) != ((c.b7 != bit) && Polynomial()[k + 1]))
  }

  lemma FeedSubtracts(c: Register, bit: bool, k: nat)
    requires k < 8
    ensures Subtracts(c, bit, k)
  {
    if k == 0 {
      assert Subtracts(c, bit, 0);
    } else if k == 1 {
      assert Subtracts(c, bit, 1);
    } else if k == 2 {
      assert Subtracts(c, bit, 2);
    } else if k == 3 {
      assert Subtracts(c, bit, 3);
    } else if k == 4 {
      assert Subtracts(c, bit, 4);
    } else if k == 5 {
      assert Subtracts(c, bit, 5);
    } else if k == 6 {
      assert Subtracts(c, bit, 6);
    } else {
      assert Subtracts(c, bit, 7);
    }
  }

  /** message(x) * x^8 is quotient times polynomial plus remainder. */
  predicate Divided(message: Bits) {
    message + BitsOfRegister(Remainder(message)) == Product(Quotient(message))
  }

  lemma {:induction false} Division(message: Bits)
    ensures Divided(message)
  {
    if message == [] {
      NothingDivided();
    } else {
      var n := |message| - 1;
      Division(message[..n]);
      OneMoreDivided(message[..n], message[n]);
      assert message == message[..n] + [message[n]];
    }
  }

  lemma OneMoreDivided(front: Bits, bit: bool)
    requires Divided(front)
    ensures Divided(front + [bit])
  {
    QuotientGrows(front, bit);
    DivisionStep(front, bit, Remainder(front));
    RemainderGrows(front, bit);
  }

  lemma RemainderGrows(front: Bits, bit: bool)
    ensures Remainder(front + [bit]) == Feed(Remainder(front), bit)
  {
    assert (front + [bit])[..|front|] == front;
  }

  lemma NothingDivided()
    ensures Divided([])
  {
    assert BitsOfRegister(ZERO) == Zeros(8);
  }

  lemma QuotientGrows(front: Bits, bit: bool)
    ensures Product(Quotient(front + [bit]))
         == XorBits(Product(Quotient(front)) + [false], Zeros(|front|) + Mask(Remainder(front).b7 != bit))
  {
    assert (front + [bit])[..|front|] == front;
    ProductGrows(Quotient(front), Remainder(front).b7 != bit);
  }

  lemma ProductGrows(q: Bits, bit: bool)
    ensures Product(q + [bit]) == XorBits(Product(q) + [false], Zeros(|q|) + Mask(bit))
  {
    var longer := q + [bit];
    assert longer[..|longer| - 1] == q && longer[|longer| - 1] == bit;
    assert Product(longer) == XorBits(Product(longer[..|longer| - 1]) + [false], Zeros(|longer| - 1) + Mask(bit));
  }

  lemma DivisionStep(front: Bits, bit: bool, c: Register)
    ensures front + [bit] + BitsOfRegister(Feed(c, bit))
         == XorBits(front + BitsOfRegister(c) + [false], Zeros(|front|) + Mask(c.b7 != bit))
  {
    var fed, held, mask := BitsOfRegister(Feed(c, bit)), BitsOfRegister(c), Mask(c.b7 != bit);
    FedBits(c, bit);
    XorAligned(front, held + [false], mask);
    Regrouped(front, [bit], fed);
    Regrouped(front, held, [false]);
  }

  lemma Regrouped(a: Bits, b: Bits, c: Bits)
    ensures a + b + c == a + (b + c)
  {}

  lemma FedBits(c: Register, bit: bool)
    ensures [bit] + BitsOfRegister(Feed(c, bit)) == XorBits(BitsOfRegister(c) + [false], Mask(c.b7 != bit))
  {
    var fed, held, mask := BitsOfRegister(Feed(c, bit)), BitsOfRegister(c), Mask(c.b7 != bit);
    forall k | 0 <= k < 8 ensures fed[k] == ((if k < 7 then held[k + 1] else false) != mask[k + 1]) {
      FedBit(c, bit, k);
    }
    ShiftedXor(bit, fed, held, mask);
  }

  lemma FedBit(c: Register, bit: bool, k: nat)
    requires k < 8
    ensures BitsOfRegister(Feed(c, bit))[k]
         == ((if k < 7 then BitsOfRegister(c)[k + 1] else false) != ((c.b7 != bit) && Polynomial()[k + 1]))
  {
    FeedSubtracts(c, bit, k);
    RegisterBit(Feed(c, bit), k);
    if k < 7 {
      RegisterBit(c, k + 1);
    }
  }

  lemma ShiftedXor(bit: bool, fed: Bits, held: Bits, mask: Bits)
    requires |fed| == 8 && |held| == 8 && |mask| == 9 && bit == (held[0] != mask[0])
    requires forall k :: 0 <= k < 8 ==> fed[k] == ((if k < 7 then held[k + 1] else false) != mask[k + 1])
    ensures [bit] + fed == XorBits(held + [false], mask)
  {}

  lemma XorAligned(front: Bits, a: Bits, b: Bits)
    requires |a| == |b|
    ensures front + XorBits(a, b) == XorBits(front + a, Zeros(|front|) + b)
  {}

  /** The leading bits of a product determine the other factor. */
  lemma {:induction false} ProductDetermines(q: Bits, q': Bits)
    requires |q| == |q'| && Product(q)[..|q|] == Product(q')[..|q|]
    ensures q == q'
  {
    if q != [] {
      var n := |q| - 1;
      LeadingParts(Product(q), Product(q'), n);
      ProductLeading(q);
      ProductLeading(q');
      ProductDetermines(q[..n], q'[..n]);
      SameParts(q, q', n);
    }
  }

  lemma SameParts(a: Bits, b: Bits, n: nat)
    requires |a| == |b| == n + 1 && a[..n] == b[..n] && a[n] == b[n]
    ensures a == b
  {
    assert a == a[..n] + [a[n]] && b == b[..n] + [b[n]];
  }

  lemma LeadingParts(a: Bits, b: Bits, n: nat)
    requires n < |a| == |b| && a[..n + 1] == b[..n + 1]
    ensures a[..n] == b[..n] && a[n] == b[n]
  {
    assert a[..n + 1][..n] == a[..n] && b[..n + 1][..n] == b[..n];
    assert a[..n + 1][n] == a[n] && b[..n + 1][n] == b[n];
  }

  lemma ProductLeading(q: Bits)
    requires q != []
    ensures var n := |q| - 1;
            && Product(q)[..n] == Product(q[..n])[..n]
            && Product(q)[n] == (Product(q[..n])[n] != q[n])
  {
    ShiftedLeading(Product(q[..|q| - 1]), |q| - 1, q[|q| - 1]);
  }

  lemma ShiftedLeading(p: Bits, n: nat, bit: bool)
    requires |p| == n + 8
    ensures var s := XorBits(p + [false], Zeros(n) + Mask(bit));
            s[..n] == p[..n] && s[n] == (p[n] != bit)
  {}

  /** A message followed by 8 bits is divisible exactly when the 8 bits are its remainder. */
  lemma DividesExactlyWhen(message: Bits, check: Bits)
    requires |check| == 8
    ensures Divides(message + check) <==> check == BitsOfRegister(Remainder(message))
  {
    var n := |message|;
    var q := Quotient(message);
    Division(message);
    assert Product(q)[..n] == message && Product(q)[n..] == BitsOfRegister(Remainder(message));
    if Divides(message + check) {
      var p :| Product(p) == message + check;
      assert Product(p)[..n] == message && Product(p)[n..] == check;
      ProductDetermines(p, q);
    }
  }

  /** The checksum is the one byte that makes message and checksum together divisible. */
  lemma CrcDivides(data: Bytes, c: Byte)
    ensures Divides(MessageBits(data) + BitsOf(c, BYTE_BITS)) <==> c == CrcOf(data)
  {
    var r := Remainder(MessageBits(data));
    DividesExactlyWhen(MessageBits(data), BitsOf(c, BYTE_BITS));
    BitsOfInverts(BitsOfRegister(r));
    assert Pow2(8) == 256;
    FromBitsInverts(c, BYTE_BITS);
  }

  // ---------------------------------------------------------------- the loop of the source

  /** Bit operations on Python integers: `& 0x80` is bit 7, `<< 1` doubling and `& 0xFF` the remainder by 256. */
  method Crc8(data: Bytes) returns (crc: nat)
    ensures crc == CrcOf(data)
    ensures forall c: Byte :: Divides(MessageBits(data) + BitsOf(c, BYTE_BITS)) <==> c == crc
  {
    crc := 0x00;
    ByteOfRegisterOf(0);
    for i := 0 to |data|
      invariant crc == CrcOf(data[..i])
    {
      ghost var before := Remainder(MessageBits(data[..i]));
      crc := BitXor(crc, data[i]);
      ByteXor(CrcOf(data[..i]), data[i]);
      RegisterOfByteOf(before);
      assert RegisterOf(crc) == Add(before, RegisterOf(data[i]));
      ghost var entry := RegisterOf(crc);
      ByteOfRegisterOf(crc);
      for j := 0 to 8
        invariant crc < 0x100 && RegisterOf(crc) == TimesXPower(entry, j)
      {
        InnerStep(crc);
        if crc / 0x80 % 2 == 1 {
          crc := BitXor(2 * crc, 0x31);
        } else {
          crc := 2 * crc;
        }
        crc := crc % 0x100;
      }
      FeedByte(before, data[i]);
      assert data[..i + 1][..i] == data[..i];
      RemainderConcat(MessageBits(data[..i]), BitsOf(data[i], BYTE_BITS));
      ByteOfRegisterOf(crc);
    }
    assert data[..|data|] == data;
    forall c: Byte ensures Divides(MessageBits(data) + BitsOf(c, BYTE_BITS)) <==> c == crc {
      CrcDivides(data, c);
    }
  }

  lemma RegisterOfByteOf(c: Register)
    ensures RegisterOf(ByteOf(c)) == c
  {
    BitsOfInverts(BitsOfRegister(c));
  }

  lemma ByteOfRegisterOf(n: nat)
    requires n < 0x100
    ensures ByteOf(RegisterOf(n)) == n
  {
    assert Pow2(8) == 256;
    FromBitsInverts(n, BYTE_BITS);
    assert BitsOfRegister(RegisterOf(n)) == BitsOf(n, BYTE_BITS);
  }

  lemma ByteXor(a: Byte, b: Byte)
    ensures BitXor(a, b) < 0x100
    ensures RegisterOf(BitXor(a, b)) == Add(RegisterOf(a), RegisterOf(b))
  {
    assert Pow2(8) == 256;
    BitXorBound(a, b, BYTE_BITS);
    XorRegister(a, b, BYTE_BITS);
  }

  lemma XorRegister(a: nat, b: nat, width: nat)
    requires width == 8
    ensures RegisterOf(BitXor(a, b)) == Add(RegisterOf(a), RegisterOf(b))
  {
    BitsOfXor(a, b, width);
  }

  lemma {:induction false} BitXorBound(a: nat, b: nat, width: nat)
    requires a < Pow2(width) && b < Pow2(width)
    ensures BitXor(a, b) < Pow2(width)
  {
    if width > 0 {
      BitXorBound(a / 2, b / 2, width - 1);
    }
  }

  /** One pass of the inner loop multiplies by x. */
  lemma InnerStep(crc: nat)
    requires crc < 0x100
    ensures RegisterOf((if crc / 0x80 % 2 == 1 then BitXor(2 * crc, 0x31) else 2 * crc) % 0x100)
         == TimesX(RegisterOf(crc))
  {
    TopBit(crc);
    var doubled := DoubledBits(crc);
    if crc / 0x80 % 2 == 1 {
      var shifted := BitXor(2 * crc, 0x31);
      BitsOfXor(2 * crc, 0x31, BYTE_BITS);
      PolynomialBits();
      MaskedRegister(shifted);
    } else {
      MaskedRegister(2 * crc);
    }
  }

  lemma MaskedRegister(n: nat)
    ensures RegisterOf(n % 0x100) == RegisterOf(n)
  {
    assert Pow2(8) == 0x100;
    BitsOfMasked(n, BYTE_BITS);
  }

  lemma TopBit(crc: nat)
    ensures BitsOf(crc, BYTE_BITS)[0] == (crc / 0x80 % 2 == 1)
  {
    TopBitAt(crc, BYTE_BITS);
    assert Pow2(7) == 0x80;
  }

  lemma {:induction false} TopBitAt(n: nat, width: nat)
    requires width > 0
    ensures Pow2(width - 1) > 0
    ensures BitsOf(n, width)[0] == (n / Pow2(width - 1) % 2 == 1)
  {
    if width > 1 {
      TopBitAt(n / 2, width - 1);
      HalfOfRemainder(n, Pow2(width - 2));
    }
  }

  lemma DoubledBits(crc: nat) returns (s: Bits)
    ensures s == BitsOf(crc, BYTE_BITS)
    ensures BitsOf(2 * crc, BYTE_BITS) == [s[1], s[2], s[3], s[4], s[5], s[6], s[7], false]
  {
    s := BitsOf(crc, BYTE_BITS);
    BitsOfNarrower(crc, 7);
    assert BitsOf(2 * crc, BYTE_BITS) == s[1..] + [false];
  }

  lemma PolynomialBits()
    ensures BitsOf(0x31, BYTE_BITS) == [false, false, true, true, false, false, false, true]
  {
    assert BitsOf(0x3, 4) == [false, false, true, true];
  }

  lemma {:induction false} RemainderConcat(a: Bits, b: Bits)
    ensures Remainder(a + b) == FeedAll(Remainder(a), b)
  {
    if b == [] {
      assert a + b == a;
    } else {
      RemainderConcat(a, b[..|b| - 1]);
      assert (a + b)[..|a + b| - 1] == a + b[..|b| - 1];
    }
  }

  function FeedAll(c: Register, bits: Bits): Register {
    if bits == [] then c else Feed(FeedAll(c, bits[..|bits| - 1]), bits[|bits| - 1])
  }

  /** Feeding the bits of a byte is adding the byte and multiplying by x^8. */
  lemma FeedByte(c: Register, b: Byte)
    ensures FeedAll(c, BitsOf(b, BYTE_BITS)) == TimesXPower(Add(c, RegisterOf(b)), 8)
  {
    FeedShort(c, BitsOf(b, BYTE_BITS));
    AlignedByte(BitsOf(b, BYTE_BITS));
  }

  /** Feeding at most 8 bits one by one is adding them at the top and shifting. */
  lemma FeedShort(c: Register, s: Bits)
    requires |s| <= 8
    ensures FeedAll(c, s) == TimesXPower(Add(c, Aligned(s, 0)), |s|)
  {
    FeedPrefix(c, s, |s|);
    assert s[..|s|] == s;
    AlignedEnd(s);
    AddZero(FeedAll(c, s));
  }

  lemma AddZero(c: Register)
    ensures Add(c, ZERO) == c
  {}

  lemma AlignedByte(s: Bits)
    requires |s| == 8
    ensures Aligned(s, 0) == Register(s[0], s[1], s[2], s[3], s[4], s[5], s[6], s[7])
  {}

  lemma AlignedEnd(s: Bits)
    ensures Aligned(s, |s|) == ZERO
  {}

  /** The bits of `s` from `k` on, at the top of a register. */
  function Aligned(s: Bits, k: nat): Register {
    Register(At(s, k), At(s, k + 1), At(s, k + 2), At(s, k + 3), At(s, k + 4), At(s, k + 5), At(s, k + 6), At(s, k + 7))
  }

  predicate At(s: Bits, k: nat) {
    k < |s| && s[k]
  }

  lemma {:induction false} FeedPrefix(c: Register, s: Bits, k: nat)
    requires k <= |s| <= 8
    ensures TimesXPower(Add(c, Aligned(s, 0)), k) == Add(FeedAll(c, s[..k]), Aligned(s, k))
  {
    if k > 0 {
      FeedPrefix(c, s, k - 1);
      assert s[..k][..k - 1] == s[..k - 1];
      FeedAligned(FeedAll(c, s[..k - 1]), s, k - 1);
    }
  }

  lemma FeedAligned(c: Register, s: Bits, k: nat)
    requires k < |s| <= 8
    ensures TimesX(Add(c, Aligned(s, k))) == Add(Feed(c, s[k]), Aligned(s, k + 1))
  {}
}
